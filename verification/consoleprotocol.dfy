/// One server's engine and one client's view of its console, joined by a socket
/// that keeps order, may drop live lines, and loses what is in flight when it closes.
///
/// The view is opened by a REST reading, answered at any later time, and only then
/// joins. After that the socket may close and join again any number of times while
/// the server restarts. The machine also has the flows that depart from this order: a
/// view opened without the reading, and a reading answered after the join.
module ConsoleProtocol {
  import opened Prelude
  import opened Console

  datatype Socket = Socket(queue: seq<Message>, subscribed: bool)

  /** `base`: the first line number the current subscription is to show; `intact`: no line of it was dropped. */
  datatype State = State(
    engine: Engine, emitted: seq<Line>, view: View, loading: bool, reading: Option<(seq<Line>, nat)>,
    socket: Option<Socket>, base: nat, intact: bool)

  const INITIAL := State(NEW_ENGINE, [], BLANK, true, None, None, 0, false)

  datatype Event =
    | Emit(stream: Stream, text: string, delivered: bool)
    | Start
    | ServeReading
    | AnswerReading
    | DenyReading
    | SkipReading
    | Connect
    | ServeJoin
    | Deliver
    | Unsubscribe
    | Disconnect
    | Leave

  predicate NoneShown(log: seq<Entry>) {
    forall k | 0 <= k < |log| :: log[k].Notice?
  }

  predicate Subscribed(s: State) {
    s.socket.Some? && s.socket.value.subscribed
  }

  predicate Enabled(s: State, ev: Event) {
    match ev
    case AnswerReading => s.reading.Some?
    case SkipReading => s.loading
    case Connect => !s.loading
    case ServeJoin => s.socket.Some?
    case Deliver => s.socket.Some? && s.socket.value.queue != []
    case _ => true
  }

  function Send(s: State, m: Message): State
    requires s.socket.Some?
  {
    s.(socket := Some(s.socket.value.(queue := s.socket.value.queue + [m])))
  }

  function EmitLine(s: State, stream: Stream, text: string, delivered: bool): State {
    var line := NextLine(s.engine, stream, text);
    var t := s.(engine := Emitted(s.engine, stream, text), emitted := s.emitted + [line]);
    if !Subscribed(s) then t
    else if delivered then Send(t, LineSent(line))
    else t.(intact := false)
  }

  function StartRun(s: State): State {
    var t := s.(engine := RunBegun(s.engine));
    if Subscribed(s) then Send(t, Reset(s.engine.run + 1)).(base := s.engine.number + 1) else t
  }

  /** What the view will be when everything in flight has arrived. */
  function Drained(v: View, queue: seq<Message>): View
    decreases queue
  {
    if queue == [] then v else Drained(Receive(v, queue[0]), queue[1..])
  }

  function Join(s: State): State
    requires s.socket.Some?
  {
    var replay := Tail(s.engine, JOIN_REPLAY);
    var seen := Drained(s.view, s.socket.value.queue).watermark;
    var first := s.engine.number + 1 - if |replay| <= s.engine.number then |replay| else s.engine.number;
    s.(
      base := if first <= seen then seen + 1 else first,
      intact := true,
      socket := Some(Socket(s.socket.value.queue + [History(replay, s.engine.run)], true)))
  }

  function Step(s: State, ev: Event): State
    requires Enabled(s, ev)
  {
    match ev
    case Emit(stream, text, delivered) => EmitLine(s, stream, text, delivered)
    case Start => StartRun(s)
    case ServeReading => s.(reading := Some((Tail(s.engine, REST_LIMIT), s.engine.run)))
    case AnswerReading =>
      s.(view := Restored(s.view, s.reading.value.0, s.reading.value.1), loading := false, reading := None)
    case DenyReading => s.(view := Denied(s.view), loading := false, reading := None)
    case SkipReading => s.(loading := false, reading := None)
    case Connect => s.(socket := Some(Socket([], false)))
    case ServeJoin => Join(s)
    case Deliver =>
      s.(view := Receive(s.view, s.socket.value.queue[0]),
         socket := Some(s.socket.value.(queue := s.socket.value.queue[1..])))
    case Unsubscribe => if s.socket.Some? then s.(socket := Some(s.socket.value.(subscribed := false))) else s
    case Disconnect => s.(socket := None)
    case Leave => s.(view := Left(s.view), loading := true, reading := None, socket := None)
  }

  predicate IsRun(evs: seq<Event>)
    decreases |evs|, 0
  {
    evs == [] || (IsRun(Init(evs)) && Enabled(After(Init(evs)), Last(evs)))
  }

  function After(evs: seq<Event>): State
    requires IsRun(evs)
    decreases |evs|, 1
  {
    if evs == [] then INITIAL else Step(After(Init(evs)), Last(evs))
  }

  // ----- what the engine guarantees -----

  /** The line was emitted, by its number. */
  predicate WasEmitted(emitted: seq<Line>, line: Line) {
    1 <= line.number <= |emitted| && emitted[line.number - 1] == line
  }

  predicate OfRun(emitted: seq<Line>, lines: seq<Line>, run: nat) {
    forall k | 0 <= k < |lines| :: WasEmitted(emitted, lines[k]) && lines[k].run == run
  }

  predicate EngineOk(e: Engine, emitted: seq<Line>) {
    && e.number == |emitted|
    && (forall i | 0 <= i < |emitted| :: emitted[i].number == i + 1 && emitted[i].run <= e.run)
    && (forall i, j | 0 <= i < j < |emitted| :: emitted[i].run <= emitted[j].run)
    && |e.history| <= |emitted| && e.history == emitted[|emitted| - |e.history|..]
    && |e.history| <= HISTORY_LIMIT
    && forall k | 0 <= k < |e.history| :: e.history[k].run == e.run
  }

  // ----- what the view shows -----

  /** The log shows lines in ascending order, each emitted by the engine in the adopted run. */
  predicate Truthful(v: View, emitted: seq<Line>) {
    && |v.log| <= CONSOLE_MAX_LINES
    && (forall i, j | 0 <= i < j < |v.log| && v.log[i].Shown? && v.log[j].Shown? ::
        v.log[i].line.number < v.log[j].line.number)
    && (forall k | 0 <= k < |v.log| && v.log[k].Shown? ::
          WasEmitted(emitted, v.log[k].line) && v.log[k].line.number <= v.watermark && v.run == Some(v.log[k].line.run))
  }

  /** The watermark is the number of a line of the adopted run or an earlier one. */
  predicate WatermarkOk(v: View, emitted: seq<Line>) {
    && v.watermark <= |emitted|
    && (v.watermark > 0 && v.run.Some? ==> emitted[v.watermark - 1].run <= v.run.value)
    && (v.run.None? ==> v.watermark == 0)
  }

  predicate ViewOk(v: View, emitted: seq<Line>, run: nat) {
    Truthful(v, emitted) && WatermarkOk(v, emitted) && (v.run.Some? ==> v.run.value <= run)
  }

  /** A message that keeps a view truthful: lines are of the run in force, and runs do not go back. */
  predicate Fits(v: View, m: Message, emitted: seq<Line>, run: nat) {
    match m
    case History(lines, r) => OfRun(emitted, lines, r) && (v.run.Some? ==> v.run.value <= r) && r <= run
    case LineSent(line) => WasEmitted(emitted, line) && v.run == Some(line.run)
    case Reset(r) => v.run.Some? && v.run.value <= r <= run
  }

  predicate QueueFits(v: View, queue: seq<Message>, emitted: seq<Line>, run: nat)
    decreases queue
  {
    queue == [] || (Fits(v, queue[0], emitted, run) && QueueFits(Receive(v, queue[0]), queue[1..], emitted, run))
  }

  predicate Ascends(lines: seq<Line>) {
    forall i, j | 0 <= i < j < |lines| :: lines[i].number < lines[j].number
  }

  predicate ReadingOk(lines: seq<Line>, r: nat, emitted: seq<Line>, run: nat) {
    OfRun(emitted, lines, r) && r <= run && Ascends(lines) && |lines| <= REST_LIMIT
  }

  predicate Safe(s: State) {
    && EngineOk(s.engine, s.emitted)
    && (s.reading.Some? ==> ReadingOk(s.reading.value.0, s.reading.value.1, s.emitted, s.engine.run))
    && (s.loading ==> s.socket.None? && s.view.run.None? && s.view.watermark == 0 && |s.view.log| <= CONSOLE_MAX_LINES)
    && (!s.loading ==> ViewOk(s.view, s.emitted, s.engine.run))
    && (s.socket.Some? ==> QueueFits(s.view, s.socket.value.queue, s.emitted, s.engine.run))
    && (Subscribed(s) ==> Drained(s.view, s.socket.value.queue).run == Some(s.engine.run))
  }

  // ----- lines appended to a view -----

  lemma NewestKeeps<T>(s: seq<T>, n: nat, k: nat)
    requires k < |Newest(s, n)|
    ensures Newest(s, n)[k] == s[|s| - |Newest(s, n)| + k]
  {
  }

  lemma AppendOneOk(v: View, line: Line, emitted: seq<Line>, run: nat)
    requires ViewOk(v, emitted, run) && WasEmitted(emitted, line) && v.run == Some(line.run)
    ensures ViewOk(AppendOne(v, line), emitted, run) && AppendOne(v, line).run == v.run
  {
    if line.number > v.watermark {
      var all := v.log + [Shown(line)];
      var log := Newest(all, CONSOLE_MAX_LINES);
      forall k | 0 <= k < |log| ensures log[k] == all[|all| - |log| + k] {
        NewestKeeps(all, CONSOLE_MAX_LINES, k);
      }
    }
  }

  lemma {:induction false} AppendAllOk(v: View, lines: seq<Line>, emitted: seq<Line>, run: nat)
    requires ViewOk(v, emitted, run) && v.run.Some? && OfRun(emitted, lines, v.run.value)
    ensures ViewOk(AppendAll(v, lines), emitted, run) && AppendAll(v, lines).run == v.run
  {
    if lines != [] {
      AppendAllOk(v, Init(lines), emitted, run);
      AppendOneOk(AppendAll(v, Init(lines)), Last(lines), emitted, run);
    }
  }

  lemma AdoptOk(v: View, r: nat, emitted: seq<Line>, run: nat)
    requires ViewOk(v, emitted, run) && (v.run.Some? ==> v.run.value <= r) && r <= run
    ensures ViewOk(Adopt(v, r), emitted, run) && Adopt(v, r).run == Some(r)
  {
  }

  /** A fitting message keeps the view truthful and never takes the adopted run back. */
  lemma ReceiveOk(v: View, m: Message, emitted: seq<Line>, run: nat)
    requires ViewOk(v, emitted, run) && Fits(v, m, emitted, run)
    ensures ViewOk(Receive(v, m), emitted, run)
    ensures v.run.Some? ==> Receive(v, m).run.Some? && v.run.value <= Receive(v, m).run.value
  {
    match m
    case History(lines, r) =>
      AdoptOk(v, r, emitted, run);
      AppendAllOk(Adopt(v, r), lines, emitted, run);
    case LineSent(line) => AppendOneOk(v, line, emitted, run);
    case Reset(r) => AdoptOk(v, r, emitted, run);
  }

  lemma {:induction false} DrainedOk(v: View, queue: seq<Message>, emitted: seq<Line>, run: nat)
    requires ViewOk(v, emitted, run) && QueueFits(v, queue, emitted, run)
    ensures ViewOk(Drained(v, queue), emitted, run)
    decreases queue
  {
    if queue != [] {
      ReceiveOk(v, queue[0], emitted, run);
      DrainedOk(Receive(v, queue[0]), queue[1..], emitted, run);
    }
  }

  /** Sending one more message. */
  lemma {:induction false} SendFits(v: View, queue: seq<Message>, m: Message, emitted: seq<Line>, run: nat)
    requires QueueFits(v, queue, emitted, run) && Fits(Drained(v, queue), m, emitted, run)
    ensures QueueFits(v, queue + [m], emitted, run)
    ensures Drained(v, queue + [m]) == Receive(Drained(v, queue), m)
    decreases queue
  {
    var more := queue + [m];
    if queue == [] {
      assert more[1..] == [];
    } else {
      assert more[1..] == queue[1..] + [m];
      SendFits(Receive(v, queue[0]), queue[1..], m, emitted, run);
    }
  }

  /** More lines and more runs leave what was true true. */
  lemma {:induction false} QueueFitsLater(v: View, queue: seq<Message>, emitted: seq<Line>, run: nat,
        more: seq<Line>, later: nat)
    requires QueueFits(v, queue, emitted, run) && run <= later
    ensures QueueFits(v, queue, emitted + more, later)
    decreases queue
  {
    if queue != [] {
      QueueFitsLater(Receive(v, queue[0]), queue[1..], emitted, run, more, later);
    }
  }

  lemma ViewOkLater(v: View, emitted: seq<Line>, run: nat, more: seq<Line>, later: nat)
    requires ViewOk(v, emitted, run) && run <= later
    ensures ViewOk(v, emitted + more, later)
  {
  }

  // ----- the engine -----

  lemma EmittedOk(e: Engine, emitted: seq<Line>, stream: Stream, text: string)
    requires EngineOk(e, emitted)
    ensures EngineOk(Emitted(e, stream, text), emitted + [NextLine(e, stream, text)])
  {
    var line := NextLine(e, stream, text);
    var all, more := e.history + [line], emitted + [line];
    assert all == more[|more| - |all|..];
    var kept := Newest(all, HISTORY_LIMIT);
    assert kept == more[|more| - |kept|..];
  }

  /** The history's lines are numbered without gaps up to the engine's counter. */
  lemma HistoryAt(e: Engine, emitted: seq<Line>, j: nat)
    requires EngineOk(e, emitted) && j < |e.history|
    ensures WasEmitted(emitted, e.history[j]) && e.history[j].run == e.run
    ensures e.history[j].number == e.number - |e.history| + j + 1
  {
    var at := |emitted| - |e.history| + j;
    assert e.history[j] == emitted[at];
  }

  lemma TailAt(e: Engine, emitted: seq<Line>, limit: int, k: nat)
    requires EngineOk(e, emitted) && k < |Tail(e, limit)|
    ensures WasEmitted(emitted, Tail(e, limit)[k]) && Tail(e, limit)[k].run == e.run
    ensures Tail(e, limit)[k].number == e.number - |Tail(e, limit)| + k + 1
    ensures Tail(e, limit)[k] == e.history[|e.history| - |Tail(e, limit)| + k]
  {
    NewestKeeps(e.history, if limit < 1 then 1 else if limit > HISTORY_LIMIT then HISTORY_LIMIT else limit, k);
    HistoryAt(e, emitted, |e.history| - |Tail(e, limit)| + k);
  }

  lemma TailOfRun(e: Engine, emitted: seq<Line>, limit: int)
    requires EngineOk(e, emitted)
    ensures OfRun(emitted, Tail(e, limit), e.run)
  {
    var lines := Tail(e, limit);
    forall k | 0 <= k < |lines| ensures WasEmitted(emitted, lines[k]) && lines[k].run == e.run {
      TailAt(e, emitted, limit, k);
    }
  }

  lemma RunBegunOk(e: Engine, emitted: seq<Line>)
    requires EngineOk(e, emitted)
    ensures EngineOk(RunBegun(e), emitted)
  {
  }

  // ----- every step -----

  lemma EmitIsSafe(s: State, stream: Stream, text: string, delivered: bool)
    requires Safe(s)
    ensures Safe(EmitLine(s, stream, text, delivered))
  {
    var line := NextLine(s.engine, stream, text);
    EmittedOk(s.engine, s.emitted, stream, text);
    if !s.loading {
      ViewOkLater(s.view, s.emitted, s.engine.run, [line], s.engine.run);
    }
    if s.socket.Some? {
      QueueFitsLater(s.view, s.socket.value.queue, s.emitted, s.engine.run, [line], s.engine.run);
      if s.socket.value.subscribed && delivered {
        SendFits(s.view, s.socket.value.queue, LineSent(line), s.emitted + [line], s.engine.run);
      }
    }
  }

  lemma StartIsSafe(s: State)
    requires Safe(s)
    ensures Safe(StartRun(s))
  {
    var later := s.engine.run + 1;
    RunBegunOk(s.engine, s.emitted);
    assert s.emitted + [] == s.emitted;
    if !s.loading {
      ViewOkLater(s.view, s.emitted, s.engine.run, [], later);
    }
    if s.socket.Some? {
      QueueFitsLater(s.view, s.socket.value.queue, s.emitted, s.engine.run, [], later);
      if s.socket.value.subscribed {
        SendFits(s.view, s.socket.value.queue, Reset(later), s.emitted, later);
      }
    }
  }

  lemma JoinIsSafe(s: State)
    requires Safe(s) && s.socket.Some?
    ensures Safe(Join(s))
  {
    TailOfRun(s.engine, s.emitted, JOIN_REPLAY);
    DrainedOk(s.view, s.socket.value.queue, s.emitted, s.engine.run);
    var m := History(Tail(s.engine, JOIN_REPLAY), s.engine.run);
    SendFits(s.view, s.socket.value.queue, m, s.emitted, s.engine.run);
    var v := Drained(s.view, s.socket.value.queue);
    ReceiveOk(v, m, s.emitted, s.engine.run);
    RunOfHistory(v, m.lines, m.run);
  }

  lemma {:induction false} RunOfAppend(v: View, lines: seq<Line>)
    ensures AppendAll(v, lines).run == v.run
  {
    if lines != [] {
      RunOfAppend(v, Init(lines));
    }
  }

  lemma RunOfHistory(v: View, lines: seq<Line>, run: nat)
    ensures Receive(v, History(lines, run)).run == Some(run)
  {
    RunOfAppend(Adopt(v, run), lines);
  }

  // ----- exactly which steps keep a view right -----

  predicate Announces(m: Message) {
    m.History? || m.Reset?
  }

  /**
   * An answer naming run `r` agrees with what is in flight: the run is the adopted
   * one, or the next message names it or a later one.
   */
  predicate FitsFlight(s: State, r: nat) {
    s.socket.Some? ==>
      var queue := s.socket.value.queue;
      || s.view.run == Some(r)
      || (queue == [] && !s.socket.value.subscribed)
      || (queue != [] && Announces(queue[0]) && r <= queue[0].run)
  }

  /** The only steps that can go wrong: opening without a reading, and an answer after the join. */
  predicate Orderly(s: State, ev: Event) {
    match ev
    case SkipReading => NoneShown(s.view.log)
    case AnswerReading => s.loading || (s.reading.Some? ==> FitsFlight(s, s.reading.value.1))
    case _ => true
  }

  lemma RunOfReceive(v: View, m: Message)
    ensures Receive(v, m).run == if m.LineSent? then v.run else Some(m.run)
  {
    if m.History? {
      RunOfHistory(v, m.lines, m.run);
    }
  }

  /** Whether a queue fits depends on the adopted run alone. */
  lemma {:induction false} QueueFitsByRun(v: View, w: View, queue: seq<Message>, emitted: seq<Line>, run: nat)
    requires v.run == w.run
    ensures QueueFits(v, queue, emitted, run) <==> QueueFits(w, queue, emitted, run)
    ensures Drained(v, queue).run == Drained(w, queue).run
    decreases queue
  {
    if queue != [] {
      RunOfReceive(v, queue[0]);
      RunOfReceive(w, queue[0]);
      QueueFitsByRun(Receive(v, queue[0]), Receive(w, queue[0]), queue[1..], emitted, run);
    }
  }

  /** Under another adopted run the queue fits exactly if its first message announces a run not before that one. */
  lemma {:induction false} OtherRunFits(v: View, w: View, queue: seq<Message>, emitted: seq<Line>, run: nat)
    requires QueueFits(v, queue, emitted, run) && queue != [] && w.run.Some? && v.run != w.run
    ensures QueueFits(w, queue, emitted, run) <==> Announces(queue[0]) && w.run.value <= queue[0].run
    ensures Announces(queue[0]) ==> Drained(v, queue).run == Drained(w, queue).run
  {
    RunOfReceive(v, queue[0]);
    RunOfReceive(w, queue[0]);
    if Announces(queue[0]) {
      QueueFitsByRun(Receive(v, queue[0]), Receive(w, queue[0]), queue[1..], emitted, run);
    }
  }

  /** A view that starts again from a reading. */
  lemma RestoredOk(v: View, lines: seq<Line>, r: nat, emitted: seq<Line>, run: nat)
    requires OfRun(emitted, lines, r) && r <= run
    ensures ViewOk(Restored(v, lines, r), emitted, run) && Restored(v, lines, r).run == Some(r)
  {
    AppendAllOk(Adopt(v, r).(log := [], watermark := 0), lines, emitted, run);
  }

  lemma AnswerIsSafeIff(s: State)
    requires Safe(s) && Enabled(s, AnswerReading)
    ensures Safe(Step(s, AnswerReading)) <==> Orderly(s, AnswerReading)
  {
    var (lines, r) := s.reading.value;
    RestoredOk(s.view, lines, r, s.emitted, s.engine.run);
    if s.socket.Some? {
      var w, queue := Restored(s.view, lines, r), s.socket.value.queue;
      if s.view.run == Some(r) {
        QueueFitsByRun(s.view, w, queue, s.emitted, s.engine.run);
      } else if queue != [] {
        OtherRunFits(s.view, w, queue, s.emitted, s.engine.run);
      }
    }
  }

  lemma DenyIsSafe(s: State)
    requires Safe(s)
    ensures Safe(Step(s, DenyReading))
  {
    if s.socket.Some? {
      QueueFitsByRun(s.view, Denied(s.view), s.socket.value.queue, s.emitted, s.engine.run);
    }
  }

  /** Opening a view without the reading is right exactly if no line is left on the screen. */
  lemma SkipIsSafeIff(s: State)
    requires Safe(s) && s.loading
    ensures Safe(Step(s, SkipReading)) <==> NoneShown(s.view.log)
  {
    var t := Step(s, SkipReading);
    if !NoneShown(s.view.log) {
      var k :| 0 <= k < |s.view.log| && s.view.log[k].Shown?;
      assert t.view.log[k].Shown? && t.view.run.None?;
    }
  }

  /** Every step keeps the invariant, except exactly the two that are not orderly. */
  lemma StepIsSafeIff(s: State, ev: Event)
    requires Safe(s) && Enabled(s, ev)
    ensures Safe(Step(s, ev)) <==> Orderly(s, ev)
  {
    match ev
    case Emit(stream, text, delivered) => EmitIsSafe(s, stream, text, delivered);
    case Start => StartIsSafe(s);
    case ServeReading =>
      TailOfRun(s.engine, s.emitted, REST_LIMIT);
      ReplayIsNewest(s.engine, s.emitted, REST_LIMIT);
    case AnswerReading => AnswerIsSafeIff(s);
    case DenyReading => DenyIsSafe(s);
    case SkipReading => SkipIsSafeIff(s);
    case ServeJoin => JoinIsSafe(s);
    case Deliver => ReceiveOk(s.view, s.socket.value.queue[0], s.emitted, s.engine.run);
    case _ =>
  }

  predicate IsOrderlyRun(evs: seq<Event>) {
    IsRun(evs) && (evs == [] || (IsOrderlyRun(Init(evs)) && Orderly(After(Init(evs)), Last(evs))))
  }

  lemma {:induction false} RunsAreSafe(evs: seq<Event>)
    requires IsOrderlyRun(evs)
    ensures Safe(After(evs))
  {
    if evs != [] {
      RunsAreSafe(Init(evs));
      StepIsSafeIff(After(Init(evs)), Last(evs));
    }
  }

  /**
   * In every orderly interleaving, an open view shows lines in strictly ascending
   * order, no line twice, each as the engine emitted it, and all of the run the
   * client has adopted.
   */
  lemma {:induction false} OpenViewIsTruthful(evs: seq<Event>)
    requires IsOrderlyRun(evs) && !After(evs).loading
    ensures Truthful(After(evs).view, After(evs).emitted)
  {
    RunsAreSafe(evs);
  }

  /** The flow of the client: the reading is answered before the join, or left out with nothing on the screen. */
  predicate IsRestFirst(evs: seq<Event>)
    requires IsRun(evs)
  {
    evs != [] ==>
      && IsRestFirst(Init(evs))
      && (Last(evs).AnswerReading? || Last(evs).DenyReading? ==> After(Init(evs)).loading)
      && (Last(evs).SkipReading? ==> NoneShown(After(Init(evs)).view.log))
  }

  /** Once a run is adopted, nothing but leaving or the answer of an older reading brings an older one back. */
  lemma {:induction false} AdoptedRunGoesBackIff(evs: seq<Event>, ev: Event)
    requires IsOrderlyRun(evs) && Enabled(After(evs), ev) && !ev.Leave? && After(evs).view.run.Some?
    ensures Step(After(evs), ev).view.run.Some?
    ensures Step(After(evs), ev).view.run.value < After(evs).view.run.value
      <==> ev.AnswerReading? && After(evs).reading.value.1 < After(evs).view.run.value
  {
    RunsAreSafe(evs);
    var s := After(evs);
    if ev.Deliver? {
      ReceiveOk(s.view, s.socket.value.queue[0], s.emitted, s.engine.run);
    } else if ev.AnswerReading? {
      RestoredOk(s.view, s.reading.value.0, s.reading.value.1, s.emitted, s.engine.run);
    }
  }

  // ----- what an unbroken subscription shows -----

  predicate Shows(v: View, line: Line) {
    Shown(line) in v.log
  }

  /** A notice stands only at the head of the log. */
  predicate NoticeFirst(v: View) {
    forall k | 1 <= k < |v.log| :: v.log[k].Shown?
  }

  lemma {:induction false} NumbersSpread(v: View, emitted: seq<Line>, i: nat, j: nat)
    requires Truthful(v, emitted) && NoticeFirst(v) && i <= j < |v.log| && v.log[i].Shown?
    ensures v.log[j].Shown? && v.log[i].line.number + (j - i) <= v.log[j].line.number
    decreases j - i
  {
    if i < j {
      assert v.log[i + 1].Shown?;
      NumbersSpread(v, emitted, i + 1, j);
    }
  }

  /** The cap on the log never drops one of the newest lines the engine still holds. */
  lemma AppendKeepsShown(v: View, line: Line, emitted: seq<Line>, x: Line)
    requires Truthful(v, emitted) && NoticeFirst(v) && Shows(v, x)
    requires v.watermark < line.number <= |emitted| < x.number + CONSOLE_MAX_LINES
    ensures Shows(AppendOne(v, line), x)
  {
    var all := v.log + [Shown(line)];
    var k :| 0 <= k < |v.log| && v.log[k] == Shown(x);
    NumbersSpread(v, emitted, k, |v.log| - 1);
    var log := Newest(all, CONSOLE_MAX_LINES);
    var at := k - (|all| - |log|);
    NewestKeeps(all, CONSOLE_MAX_LINES, at);
    assert log[at] == Shown(x);
  }

  lemma AppendShows(v: View, line: Line)
    requires v.watermark < line.number
    ensures Shows(AppendOne(v, line), line)
  {
    var all := v.log + [Shown(line)];
    var log := Newest(all, CONSOLE_MAX_LINES);
    assert log[|log| - 1] == Shown(line);
  }

  lemma AppendKeepsNotice(v: View, line: Line)
    requires NoticeFirst(v)
    ensures NoticeFirst(AppendOne(v, line))
  {
  }

  /** What the subscription owes the view, and delivers once the queue has drained. */
  predicate Complete(s: State) {
    && NoticeFirst(s.view)
    && (s.socket.Some? ==> NoticeFirst(Drained(s.view, s.socket.value.queue)))
    && (Subscribed(s) && s.intact ==>
          forall k | 0 <= k < |s.engine.history| && s.base <= s.engine.history[k].number ::
            Shows(Drained(s.view, s.socket.value.queue), s.engine.history[k]))
  }

  lemma EmitIsComplete(s: State, stream: Stream, text: string, delivered: bool)
    requires Safe(s) && Complete(s)
    ensures Complete(EmitLine(s, stream, text, delivered))
  {
    var s' := EmitLine(s, stream, text, delivered);
    if Subscribed(s) && delivered {
      var line, more := NextLine(s.engine, stream, text), s.emitted + [NextLine(s.engine, stream, text)];
      var v := Drained(s.view, s.socket.value.queue);
      DrainedOk(s.view, s.socket.value.queue, s.emitted, s.engine.run);
      ViewOkLater(v, s.emitted, s.engine.run, [line], s.engine.run);
      QueueFitsLater(s.view, s.socket.value.queue, s.emitted, s.engine.run, [line], s.engine.run);
      SendFits(s.view, s.socket.value.queue, LineSent(line), more, s.engine.run);
      AppendKeepsNotice(v, line);
      AppendShows(v, line);
      if s.intact {
        HistoryStaysShown(s.engine, s.emitted, stream, text, v, s.base);
      }
    }
  }

  lemma HistoryStaysShown(e: Engine, emitted: seq<Line>, stream: Stream, text: string, v: View, base: nat)
    requires EngineOk(e, emitted) && ViewOk(v, emitted + [NextLine(e, stream, text)], e.run)
        && v.watermark <= |emitted| && NoticeFirst(v)
    requires forall k | 0 <= k < |e.history| && base <= e.history[k].number :: Shows(v, e.history[k])
    ensures var e' := Emitted(e, stream, text);
            forall k | 0 <= k < |e'.history| && base <= e'.history[k].number ::
              Shows(AppendOne(v, NextLine(e, stream, text)), e'.history[k])
  {
    var line, e' := NextLine(e, stream, text), Emitted(e, stream, text);
    var more := emitted + [line];
    EmittedOk(e, emitted, stream, text);
    AppendShows(v, line);
    var all := e.history + [line];
    forall k | 0 <= k < |e'.history| && base <= e'.history[k].number ensures Shows(AppendOne(v, line), e'.history[k]) {
      NewestKeeps(all, HISTORY_LIMIT, k);
      var x := e'.history[k];
      if k < |e'.history| - 1 {
        assert x == e.history[|all| - |e'.history| + k];
        assert x == more[|more| - |e'.history| + k];
        AppendKeepsShown(v, line, more, x);
      }
    }
  }

  lemma StartIsComplete(s: State)
    requires Safe(s) && Complete(s)
    ensures Complete(StartRun(s))
  {
    if Subscribed(s) {
      var later := s.engine.run + 1;
      assert s.emitted + [] == s.emitted;
      QueueFitsLater(s.view, s.socket.value.queue, s.emitted, s.engine.run, [], later);
      SendFits(s.view, s.socket.value.queue, Reset(later), s.emitted, later);
    }
  }

  lemma ReplayCovers(e: Engine, emitted: seq<Line>, limit: int, k: nat) returns (i: nat)
    requires EngineOk(e, emitted) && k < |e.history| && e.number < e.history[k].number + |Tail(e, limit)|
    ensures i < |Tail(e, limit)| && Tail(e, limit)[i] == e.history[k]
  {
    HistoryAt(e, emitted, k);
    i := k - (|e.history| - |Tail(e, limit)|);
    TailAt(e, emitted, limit, i);
  }

  lemma ReplayIsNewest(e: Engine, emitted: seq<Line>, limit: int)
    requires EngineOk(e, emitted)
    ensures var lines := Tail(e, limit);
            && (forall i, j | 0 <= i < j < |lines| :: lines[i].number < lines[j].number)
            && (forall i | 0 <= i < |lines| :: |emitted| < lines[i].number + CONSOLE_MAX_LINES)
  {
    var lines := Tail(e, limit);
    forall i | 0 <= i < |lines| ensures lines[i].number == e.number - |lines| + i + 1 {
      TailAt(e, emitted, limit, i);
    }
  }

  /** Receiving a replay shows all of it that is above the watermark. */
  lemma HistoryShows(v: View, e: Engine, emitted: seq<Line>, limit: int, k: nat)
    requires ViewOk(v, emitted, e.run) && NoticeFirst(v) && EngineOk(e, emitted)
    requires k < |e.history| && v.watermark < e.history[k].number && e.number < e.history[k].number + |Tail(e, limit)|
    ensures Shows(Receive(v, History(Tail(e, limit), e.run)), e.history[k])
  {
    AdoptOk(v, e.run, emitted, e.run);
    TailOfRun(e, emitted, limit);
    ReplayIsNewest(e, emitted, limit);
    RecentAt(e, emitted, k);
    AppendAllShowsIff(Adopt(v, e.run), Tail(e, limit), emitted, e.run, 0, e.history[k]);
    var i := ReplayCovers(e, emitted, limit, k);
  }

  lemma JoinIsComplete(s: State)
    requires Safe(s) && Complete(s) && s.socket.Some?
    ensures Complete(Join(s))
  {
    var queue, e, h := s.socket.value.queue, s.engine, s.engine.history;
    var m := History(Tail(e, JOIN_REPLAY), e.run);
    var v := Drained(s.view, queue);
    DrainedOk(s.view, queue, s.emitted, e.run);
    TailOfRun(e, s.emitted, JOIN_REPLAY);
    SendFits(s.view, queue, m, s.emitted, e.run);
    AppendAllNotice(Adopt(v, e.run), m.lines);
    forall k | 0 <= k < |h| && Join(s).base <= h[k].number ensures Shows(Receive(v, m), h[k]) {
      HistoryShows(v, e, s.emitted, JOIN_REPLAY, k);
    }
  }

  lemma {:induction false} AppendAllNotice(v: View, lines: seq<Line>)
    requires NoticeFirst(v)
    ensures NoticeFirst(AppendAll(v, lines))
  {
    if lines != [] {
      AppendAllNotice(v, Init(lines));
      AppendKeepsNotice(AppendAll(v, Init(lines)), Last(lines));
    }
  }

  // ----- lines in flight -----

  function LinesOf(m: Message): seq<Line> {
    match m
    case History(lines, _) => lines
    case LineSent(line) => [line]
    case Reset(_) => []
  }

  function InFlight(queue: seq<Message>): seq<Line> {
    if queue == [] then [] else LinesOf(queue[0]) + InFlight(queue[1..])
  }

  /** From number `base` on, the lines are sent in ascending order. */
  predicate AscendsFrom(lines: seq<Line>, base: nat) {
    forall i, j | 0 <= i < j < |lines| && base <= lines[i].number && base <= lines[j].number ::
      lines[i].number < lines[j].number
  }

  predicate Below(lines: seq<Line>, n: nat) {
    forall i | 0 <= i < |lines| :: lines[i].number < n
  }

  predicate FlightIs(queue: seq<Message>, base: nat, bound: nat) {
    AscendsFrom(InFlight(queue), base) && Below(InFlight(queue), bound)
  }

  predicate FlightOk(s: State) {
    s.socket.Some? ==> FlightIs(s.socket.value.queue, s.base, |s.emitted| + 1)
  }

  lemma {:induction false} SendInFlight(queue: seq<Message>, m: Message)
    ensures InFlight(queue + [m]) == InFlight(queue) + LinesOf(m)
  {
    var more := queue + [m];
    if queue == [] {
      assert more[1..] == [];
    } else {
      assert more[1..] == queue[1..] + [m];
      SendInFlight(queue[1..], m);
    }
  }

  lemma {:induction false} AppendPasses(v: View, lines: seq<Line>, n: nat)
    ensures AppendAll(v, lines).watermark < n <==> v.watermark < n && Below(lines, n)
  {
    if lines != [] {
      AppendPasses(v, Init(lines), n);
      assert Below(lines, n) <==> Below(Init(lines), n) && Last(lines).number < n;
    }
  }

  lemma ReceivePasses(v: View, m: Message, n: nat)
    ensures Receive(v, m).watermark < n <==> v.watermark < n && Below(LinesOf(m), n)
  {
    match m
    case History(lines, run) => AppendPasses(Adopt(v, run), lines, n);
    case LineSent(line) => assert LinesOf(m)[0] == line;
    case Reset(_) =>
  }

  /** The watermark ends above everything that was in flight. */
  lemma {:induction false} DrainedPasses(v: View, queue: seq<Message>, n: nat)
    ensures Drained(v, queue).watermark < n <==> v.watermark < n && Below(InFlight(queue), n)
    decreases queue
  {
    if queue != [] {
      ReceivePasses(v, queue[0], n);
      DrainedPasses(Receive(v, queue[0]), queue[1..], n);
      BelowBoth(LinesOf(queue[0]), InFlight(queue[1..]), n);
    }
  }

  lemma BelowBoth(a: seq<Line>, b: seq<Line>, n: nat)
    ensures Below(a + b, n) <==> Below(a, n) && Below(b, n)
  {
    if Below(a + b, n) {
      assert forall i | 0 <= i < |a| :: (a + b)[i] == a[i];
      assert forall i | 0 <= i < |b| :: (a + b)[|a| + i] == b[i];
    }
  }

  lemma AscendsFromBoth(a: seq<Line>, b: seq<Line>, base: nat)
    requires AscendsFrom(a, base) && AscendsFrom(b, base)
    requires forall i, j | 0 <= i < |a| && 0 <= j < |b| && base <= a[i].number && base <= b[j].number ::
        a[i].number < b[j].number
    ensures AscendsFrom(a + b, base)
  {
  }

  lemma EmitKeepsFlight(s: State, stream: Stream, text: string, delivered: bool)
    requires FlightOk(s) && s.engine.number == |s.emitted|
    ensures FlightOk(EmitLine(s, stream, text, delivered))
  {
    if Subscribed(s) && delivered {
      var line, lines := NextLine(s.engine, stream, text), InFlight(s.socket.value.queue);
      SendInFlight(s.socket.value.queue, LineSent(line));
      AscendsFromBoth(lines, [line], s.base);
      BelowBoth(lines, [line], |s.emitted| + 2);
    }
  }

  lemma ResetKeepsFlight(queue: seq<Message>, r: nat, base: nat, bound: nat)
    requires FlightIs(queue, base, bound)
    ensures FlightIs(queue + [Reset(r)], bound, bound)
  {
    SendInFlight(queue, Reset(r));
    assert InFlight(queue) + LinesOf(Reset(r)) == InFlight(queue);
  }

  lemma StartKeepsFlight(s: State)
    requires FlightOk(s) && s.engine.number == |s.emitted|
    ensures FlightOk(StartRun(s))
  {
    if Subscribed(s) {
      ResetKeepsFlight(s.socket.value.queue, s.engine.run + 1, s.base, |s.emitted| + 1);
    }
  }

  lemma JoinKeepsFlight(s: State)
    requires Safe(s) && FlightOk(s) && s.socket.Some?
    ensures FlightOk(Join(s))
  {
    var queue, replay := s.socket.value.queue, Tail(s.engine, JOIN_REPLAY);
    SendInFlight(queue, History(replay, s.engine.run));
    ReplayIsNewest(s.engine, s.emitted, JOIN_REPLAY);
    TailOfRun(s.engine, s.emitted, JOIN_REPLAY);
    DrainedPasses(s.view, queue, Join(s).base);
    AscendsFromBoth(InFlight(queue), replay, Join(s).base);
    BelowBoth(InFlight(queue), replay, |s.emitted| + 1);
  }

  lemma AscendsFromRest(a: seq<Line>, b: seq<Line>, base: nat)
    requires AscendsFrom(a + b, base)
    ensures AscendsFrom(a, base) && AscendsFrom(b, base)
    ensures forall i, j | 0 <= i < |a| && 0 <= j < |b| && base <= a[i].number && base <= b[j].number ::
        a[i].number < b[j].number
  {
    var all := a + b;
    assert forall i | 0 <= i < |a| :: all[i] == a[i];
    forall i, j | 0 <= i < j < |b| && base <= b[i].number && base <= b[j].number ensures b[i].number < b[j].number {
      assert all[|a| + i] == b[i] && all[|a| + j] == b[j];
    }
    forall i, j | 0 <= i < |a| && 0 <= j < |b| && base <= a[i].number && base <= b[j].number
      ensures a[i].number < b[j].number
    {
      assert all[i] == a[i] && all[|a| + j] == b[j];
    }
  }

  lemma DeliverKeepsFlight(s: State)
    requires FlightOk(s) && Enabled(s, Deliver)
    ensures FlightOk(Step(s, Deliver))
  {
    var a, b := LinesOf(s.socket.value.queue[0]), InFlight(s.socket.value.queue[1..]);
    BelowBoth(a, b, |s.emitted| + 1);
    AscendsFromRest(a, b, s.base);
  }

  lemma StepKeepsFlight(s: State, ev: Event)
    requires Safe(s) && FlightOk(s) && Enabled(s, ev)
    ensures FlightOk(Step(s, ev))
  {
    match ev
    case Emit(stream, text, delivered) => EmitKeepsFlight(s, stream, text, delivered);
    case Start => StartKeepsFlight(s);
    case ServeJoin => JoinKeepsFlight(s);
    case Deliver => DeliverKeepsFlight(s);
    case _ =>
  }

  // ----- which lines a view will show -----

  /** A line that the engine still holds. */
  predicate IsRecent(line: Line, emitted: seq<Line>) {
    WasEmitted(emitted, line) && |emitted| < line.number + CONSOLE_MAX_LINES
  }

  lemma AppendOneShowsIff(v: View, x: Line, emitted: seq<Line>, run: nat, h: Line)
    requires ViewOk(v, emitted, run) && NoticeFirst(v) && WasEmitted(emitted, x) && IsRecent(h, emitted)
    ensures Shows(AppendOne(v, x), h) <==> Shows(v, h) || (h == x && v.watermark < h.number)
  {
    if v.watermark < x.number {
      AppendShows(v, x);
      if Shows(v, h) {
        AppendKeepsShown(v, x, emitted, h);
      }
    }
  }

  lemma {:induction false} AppendAllShowsIff(v: View, lines: seq<Line>, emitted: seq<Line>, run: nat, base: nat,
        h: Line)
    requires ViewOk(v, emitted, run) && NoticeFirst(v) && v.run.Some? && OfRun(emitted, lines, v.run.value)
    requires AscendsFrom(lines, base) && base <= h.number && IsRecent(h, emitted)
    ensures Shows(AppendAll(v, lines), h) <==> Shows(v, h) || (h in lines && v.watermark < h.number)
  {
    if lines != [] {
      var front, x := Init(lines), Last(lines);
      assert lines == front + [x];
      AscendsFromRest(front, [x], base);
      AppendAllShowsIff(v, front, emitted, run, base, h);
      AppendAllOk(v, front, emitted, run);
      AppendAllNotice(v, front);
      AppendPasses(v, front, h.number);
      AppendOneShowsIff(AppendAll(v, front), x, emitted, run, h);
      assert h in lines <==> h in front || h == x;
      if h == x {
        assert [x][0] == x;
        assert Below(front, h.number);
      }
    }
  }

  lemma ReceiveNotice(v: View, m: Message)
    requires NoticeFirst(v)
    ensures NoticeFirst(Receive(v, m))
  {
    match m
    case History(lines, run) => AppendAllNotice(Adopt(v, run), lines);
    case LineSent(line) => AppendKeepsNotice(v, line);
    case Reset(_) =>
  }

  lemma {:induction false} DrainedNotice(v: View, queue: seq<Message>)
    requires NoticeFirst(v)
    ensures NoticeFirst(Drained(v, queue))
    decreases queue
  {
    if queue != [] {
      ReceiveNotice(v, queue[0]);
      DrainedNotice(Receive(v, queue[0]), queue[1..]);
    }
  }

  /** A line of the newest run is not cleared again, and arrives if it is above the watermark. */
  lemma ReceiveShowsIff(v: View, m: Message, emitted: seq<Line>, run: nat, base: nat, h: Line)
    requires ViewOk(v, emitted, run) && NoticeFirst(v) && Fits(v, m, emitted, run)
    requires AscendsFrom(LinesOf(m), base) && base <= h.number && IsRecent(h, emitted) && h.run == run
    ensures Shows(Receive(v, m), h) <==> Shows(v, h) || (h in LinesOf(m) && v.watermark < h.number)
  {
    match m
    case History(lines, r) =>
      AdoptOk(v, r, emitted, run);
      AppendAllShowsIff(Adopt(v, r), lines, emitted, run, base, h);
      AdoptShows(v, r, emitted, run, h);
    case LineSent(line) => AppendOneShowsIff(v, line, emitted, run, h);
    case Reset(r) => AdoptShows(v, r, emitted, run, h);
  }

  lemma AdoptShows(v: View, r: nat, emitted: seq<Line>, run: nat, h: Line)
    requires ViewOk(v, emitted, run) && (v.run.Some? ==> v.run.value <= r) && r <= run && h.run == run
    ensures Shows(Adopt(v, r), h) <==> Shows(v, h)
  {
  }

  /** Of the newest lines, the drained view shows those it shows now, and those in flight above its watermark. */
  lemma {:induction false} DrainedShowsIff(v: View, queue: seq<Message>, emitted: seq<Line>, run: nat, base: nat,
        h: Line)
    requires ViewOk(v, emitted, run) && NoticeFirst(v) && QueueFits(v, queue, emitted, run)
    requires AscendsFrom(InFlight(queue), base) && base <= h.number && IsRecent(h, emitted) && h.run == run
    ensures Shows(Drained(v, queue), h) <==> Shows(v, h) || (h in InFlight(queue) && v.watermark < h.number)
    decreases queue
  {
    if queue != [] {
      var m, rest := queue[0], InFlight(queue[1..]);
      AscendsFromRest(LinesOf(m), rest, base);
      ReceiveShowsIff(v, m, emitted, run, base, h);
      ReceiveOk(v, m, emitted, run);
      ReceiveNotice(v, m);
      DrainedShowsIff(Receive(v, m), queue[1..], emitted, run, base, h);
      ReceivePasses(v, m, h.number);
      if h in rest {
        var j :| 0 <= j < |rest| && rest[j] == h;
        assert Below(LinesOf(m), h.number);
      }
    }
  }

  // ----- exactly which steps keep a subscription complete -----

  /** An answer keeps the lines the view owes: each is in the answer, or in flight and newer than all of it. */
  predicate Covers(s: State, lines: seq<Line>) {
    Subscribed(s) && s.intact ==>
      forall k | 0 <= k < |s.engine.history| && s.base <= s.engine.history[k].number ::
        var h := s.engine.history[k];
        h in lines || (h in InFlight(s.socket.value.queue) && Below(lines, h.number))
  }

  predicate Covering(s: State, ev: Event) {
    match ev
    case AnswerReading => s.reading.Some? ==> Covers(s, s.reading.value.0)
    case DenyReading => Covers(s, [])
    case _ => true
  }

  lemma RecentAt(e: Engine, emitted: seq<Line>, k: nat)
    requires EngineOk(e, emitted) && k < |e.history|
    ensures IsRecent(e.history[k], emitted) && e.history[k].run == e.run
  {
    HistoryAt(e, emitted, k);
  }

  /** A view put in the place of the present one, with the same messages in flight. */
  lemma ReplacedIsCompleteIff(s: State, w: View, lines: seq<Line>)
    requires Safe(s) && FlightOk(s) && Safe(s.(view := w)) && !s.loading && NoticeFirst(w)
    requires forall h | IsRecent(h, s.emitted) && s.base <= h.number :: Shows(w, h) <==> h in lines
    requires forall n | 0 < n :: w.watermark < n <==> Below(lines, n)
    ensures Complete(s.(view := w)) <==> Covers(s, lines)
  {
    if s.socket.Some? {
      var queue, h := s.socket.value.queue, s.engine.history;
      DrainedNotice(w, queue);
      forall k | 0 <= k < |h| && s.base <= h[k].number
        ensures Shows(Drained(w, queue), h[k])
            <==> h[k] in lines || (h[k] in InFlight(queue) && Below(lines, h[k].number))
      {
        RecentAt(s.engine, s.emitted, k);
        DrainedShowsIff(w, queue, s.emitted, s.engine.run, s.base, h[k]);
      }
    }
  }

  lemma BlankShows(v: View, r: nat, lines: seq<Line>, emitted: seq<Line>, run: nat, base: nat, h: Line)
    requires OfRun(emitted, lines, r) && r <= run && Ascends(lines) && IsRecent(h, emitted) && base <= h.number
    ensures Shows(Restored(v, lines, r), h) <==> h in lines
  {
    var blank := Adopt(v, r).(log := [], watermark := 0);
    AppendAllShowsIff(blank, lines, emitted, run, base, h);
  }

  lemma AnswerIsCompleteIff(s: State)
    requires Safe(s) && FlightOk(s) && Complete(s) && Enabled(s, AnswerReading) && Orderly(s, AnswerReading)
    ensures Complete(Step(s, AnswerReading)) <==> Covering(s, AnswerReading)
  {
    var (lines, r) := s.reading.value;
    var w, blank := Restored(s.view, lines, r), Adopt(s.view, r).(log := [], watermark := 0);
    AppendAllNotice(blank, lines);
    if !s.loading {
      AnswerIsSafeIff(s);
      forall h | IsRecent(h, s.emitted) && s.base <= h.number ensures Shows(w, h) <==> h in lines {
        BlankShows(s.view, r, lines, s.emitted, s.engine.run, s.base, h);
      }
      forall n | 0 < n ensures w.watermark < n <==> Below(lines, n) {
        AppendPasses(blank, lines, n);
      }
      ReplacedIsCompleteIff(s, w, lines);
    }
  }

  lemma DenyIsCompleteIff(s: State)
    requires Safe(s) && FlightOk(s) && Complete(s)
    ensures Complete(Step(s, DenyReading)) <==> Covering(s, DenyReading)
  {
    if !s.loading {
      DenyIsSafe(s);
      ReplacedIsCompleteIff(s, Denied(s.view), []);
    }
  }

  lemma DeliverIsComplete(s: State)
    requires Complete(s) && Enabled(s, Deliver)
    ensures Complete(Step(s, Deliver))
  {
    ReceiveNotice(s.view, s.socket.value.queue[0]);
  }

  /** Every step keeps what a subscription owes the view, except exactly the answers that do not cover it. */
  lemma StepIsCompleteIff(s: State, ev: Event)
    requires Safe(s) && FlightOk(s) && Complete(s) && Enabled(s, ev) && Orderly(s, ev)
    ensures Complete(Step(s, ev)) <==> Covering(s, ev)
  {
    match ev
    case Emit(stream, text, delivered) => EmitIsComplete(s, stream, text, delivered);
    case Start => StartIsComplete(s);
    case AnswerReading => AnswerIsCompleteIff(s);
    case DenyReading => DenyIsCompleteIff(s);
    case ServeJoin => JoinIsComplete(s);
    case Deliver => DeliverIsComplete(s);
    case _ =>
  }

  predicate IsCoveredRun(evs: seq<Event>) {
    IsOrderlyRun(evs) && (evs == [] || (IsCoveredRun(Init(evs)) && Covering(After(Init(evs)), Last(evs))))
  }

  /**
   * While a subscription loses no line, a view with nothing in flight shows
   * every line the engine still holds from the subscription's base on: from the
   * replay's first line above the watermark, or from the start of a run that
   * began since.
   */
  lemma {:induction false} SubscriptionIsComplete(evs: seq<Event>)
    requires IsCoveredRun(evs)
    ensures Complete(After(evs)) && FlightOk(After(evs))
  {
    if evs != [] {
      SubscriptionIsComplete(Init(evs));
      RunsAreSafe(Init(evs));
      StepIsCompleteIff(After(Init(evs)), Last(evs));
      StepKeepsFlight(After(Init(evs)), Last(evs));
    }
  }

  /** In the client's own order all of this holds without conditions. */
  lemma {:induction false} RestFirstIsCovered(evs: seq<Event>)
    requires IsRun(evs) && IsRestFirst(evs)
    ensures IsCoveredRun(evs)
  {
    if evs != [] {
      RestFirstIsCovered(Init(evs));
      RunsAreSafe(Init(evs));
    }
  }

  /** Every line of a run newer than the adopted one is above the watermark, so a replay of it passes. */
  lemma NewRunPassesWatermark(v: View, e: Engine, emitted: seq<Line>, k: nat)
    requires ViewOk(v, emitted, e.run) && EngineOk(e, emitted) && k < |e.history|
    requires v.run.Some? && v.run.value != e.run
    ensures v.watermark < e.history[k].number
  {
    HistoryAt(e, emitted, k);
  }

  // ----- where the flow is not REST first, then join -----

  /**
   * A REST reading answered after the join (as when a page comes back from the
   * browser's cache) leaves the view right and complete if and only if it names the
   * adopted run, or one that a message in flight is about to replace, and holds every
   * line the view owes that is not still in flight behind it.
   */
  lemma {:induction false} LateReadingIff(evs: seq<Event>)
    requires IsCoveredRun(evs) && Enabled(After(evs), AnswerReading) && !After(evs).loading
    ensures var s, t := After(evs), Step(After(evs), AnswerReading);
            Safe(t) && Complete(t) <==> FitsFlight(s, s.reading.value.1) && Covers(s, s.reading.value.0)
  {
    RunsAreSafe(evs);
    SubscriptionIsComplete(evs);
    AnswerIsSafeIff(After(evs));
    if Orderly(After(evs), AnswerReading) {
      AnswerIsCompleteIff(After(evs));
    }
  }

  /** With nothing in flight: the run must be the present one, and every line the view owes must be in the reading. */
  lemma {:induction false} LateReadingWhenQuiet(evs: seq<Event>)
    requires IsCoveredRun(evs) && Enabled(After(evs), AnswerReading) && !After(evs).loading
    requires Subscribed(After(evs)) && After(evs).intact && After(evs).socket.value.queue == []
    ensures var s, t := After(evs), Step(After(evs), AnswerReading);
            var (lines, r) := s.reading.value;
            Safe(t) && Complete(t) <==>
              (r == s.engine.run
               && forall k | 0 <= k < |s.engine.history| && s.base <= s.engine.history[k].number ::
                   s.engine.history[k] in lines)
  {
    LateReadingIff(evs);
    RunsAreSafe(evs);
  }

  /** Otherwise the next line is shown under the older run. */
  lemma LateReadingMixesRuns(s: State, lines: seq<Line>, run: nat, stream: Stream, text: string)
    requires Safe(s) && !s.loading && Subscribed(s) && s.socket.value.queue == []
    requires OfRun(s.emitted, lines, run) && run < s.engine.run
    ensures var late := s.(view := Restored(s.view, lines, run));
            var sent := Step(late, Emit(stream, text, true));
            Enabled(sent, Deliver) && !Truthful(Step(sent, Deliver).view, Step(sent, Deliver).emitted)
  {
    RestoredOk(s.view, lines, run, s.emitted, s.engine.run);
    var late := s.(view := Restored(s.view, lines, run));
    AppendShows(late.view, NextLine(s.engine, stream, text));
  }

  function ShownAll(lines: seq<Line>): (log: seq<Entry>)
    ensures |log| == |lines| && forall k | 0 <= k < |lines| :: log[k] == Shown(lines[k])
  {
    if lines == [] then [] else ShownAll(Init(lines)) + [Shown(Last(lines))]
  }

  lemma NewestTwice<T>(s: seq<T>, x: T, n: nat)
    requires n > 0
    ensures Newest(Newest(s, n) + [x], n) == Newest(s + [x], n)
  {
  }

  /** Ascending lines above the watermark are all appended. */
  lemma {:induction false} AppendAllLog(v: View, lines: seq<Line>)
    requires |v.log| <= CONSOLE_MAX_LINES && Ascends(lines)
    requires forall k | 0 <= k < |lines| :: v.watermark < lines[k].number
    ensures AppendAll(v, lines).log == Newest(v.log + ShownAll(lines), CONSOLE_MAX_LINES)
    ensures AppendAll(v, lines).watermark == if lines == [] then v.watermark else Last(lines).number
  {
    if lines == [] {
      assert v.log + ShownAll(lines) == v.log;
    } else {
      AppendAllLog(v, Init(lines));
      ConcatAssociates(v.log, ShownAll(Init(lines)), [Shown(Last(lines))]);
      NewestTwice(v.log + ShownAll(Init(lines)), Shown(Last(lines)), CONSOLE_MAX_LINES);
    }
  }

  function Reopened(s: State): State
    requires s.loading
  {
    Step(Join(Step(Step(s, SkipReading), Connect)), Deliver)
  }

  /** A view opened again without the reading keeps its log, and the whole replay is added to it. */
  lemma ReopenedLog(s: State)
    requires Safe(s) && s.loading
    ensures Reopened(s).view.log == Newest(s.view.log + ShownAll(Tail(s.engine, JOIN_REPLAY)), CONSOLE_MAX_LINES)
  {
    var replay := Tail(s.engine, JOIN_REPLAY);
    ReplayIsNewest(s.engine, s.emitted, JOIN_REPLAY);
    TailOfRun(s.engine, s.emitted, JOIN_REPLAY);
    AppendAllLog(Adopt(s.view, s.engine.run), replay);
  }

  /** What is left on the screen of a view that was truthful: emitted lines of one run, ascending. */
  predicate Leftover(log: seq<Entry>, emitted: seq<Line>) {
    && (forall k | 0 <= k < |log| && log[k].Shown? :: WasEmitted(emitted, log[k].line))
    && (forall i, j | 0 <= i < j < |log| && log[i].Shown? && log[j].Shown? ::
          log[i].line.number < log[j].line.number && log[i].line.run == log[j].line.run)
  }

  lemma LeftoverLater(log: seq<Entry>, emitted: seq<Line>, more: seq<Line>)
    requires Leftover(log, emitted)
    ensures Leftover(log, emitted + more)
  {
  }

  lemma TruthfulIsLeftover(v: View, emitted: seq<Line>)
    requires Truthful(v, emitted)
    ensures Leftover(v.log, emitted)
  {
  }

  lemma LeftoverStays(s: State, ev: Event)
    requires Safe(s) && Enabled(s, ev) && (s.loading ==> Leftover(s.view.log, s.emitted))
    ensures Step(s, ev).loading ==> Leftover(Step(s, ev).view.log, Step(s, ev).emitted)
  {
    if s.loading {
      if ev.Emit? {
        LeftoverLater(s.view.log, s.emitted, [NextLine(s.engine, ev.stream, ev.text)]);
      }
    } else if ev.Leave? {
      TruthfulIsLeftover(s.view, s.emitted);
    }
  }

  lemma {:induction false} LoadingShowsLeftover(evs: seq<Event>)
    requires IsOrderlyRun(evs)
    ensures After(evs).loading ==> Leftover(After(evs).view.log, After(evs).emitted)
  {
    if evs != [] {
      LoadingShowsLeftover(Init(evs));
      RunsAreSafe(Init(evs));
      LeftoverStays(After(Init(evs)), Last(evs));
    }
  }

  /** How many entries of the old log the replay pushes out. */
  function PushedOut(s: State): nat {
    var all := |s.view.log| + |Tail(s.engine, JOIN_REPLAY)|;
    if all <= CONSOLE_MAX_LINES then 0 else all - CONSOLE_MAX_LINES
  }

  /** The leftovers still shown are of the present run and numbered below the replay's first line. */
  predicate SurvivorsFit(s: State) {
    var replay := Tail(s.engine, JOIN_REPLAY);
    forall k | PushedOut(s) <= k < |s.view.log| && s.view.log[k].Shown? ::
      replay != [] && s.view.log[k].line.run == s.engine.run && s.view.log[k].line.number < replay[0].number
  }

  lemma NewestDrops<T>(a: seq<T>, b: seq<T>, n: nat)
    requires |b| <= n
    ensures Newest(a + b, n) == a[if |a| + |b| <= n then 0 else |a| + |b| - n..] + b
  {
  }

  lemma ReopenedWatermark(s: State)
    requires Safe(s) && s.loading
    ensures Reopened(s).view.run == Some(s.engine.run)
    ensures Reopened(s).view.watermark == if Tail(s.engine, JOIN_REPLAY) == [] then 0 else s.engine.number
  {
    var replay := Tail(s.engine, JOIN_REPLAY);
    ReplayIsNewest(s.engine, s.emitted, JOIN_REPLAY);
    TailOfRun(s.engine, s.emitted, JOIN_REPLAY);
    AppendAllLog(Adopt(s.view, s.engine.run), replay);
    RunOfAppend(Adopt(s.view, s.engine.run), replay);
    if replay != [] {
      TailAt(s.engine, s.emitted, JOIN_REPLAY, |replay| - 1);
    }
  }

  /** The survivors, and behind them the replay. */
  lemma ReopenedView(s: State)
    requires Safe(s) && s.loading
    ensures Reopened(s).view.log == s.view.log[PushedOut(s)..] + ShownAll(Tail(s.engine, JOIN_REPLAY))
    ensures Reopened(s).view.run == Some(s.engine.run)
    ensures Reopened(s).view.watermark == if Tail(s.engine, JOIN_REPLAY) == [] then 0 else s.engine.number
  {
    ReopenedLog(s);
    ReopenedWatermark(s);
    NewestDrops(s.view.log, ShownAll(Tail(s.engine, JOIN_REPLAY)), CONSOLE_MAX_LINES);
  }

  /** Old entries that fit in front of the lines of a replay. */
  predicate FitsBefore(front: seq<Entry>, lines: seq<Line>, run: nat) {
    forall k | 0 <= k < |front| && front[k].Shown? ::
      lines != [] && front[k].line.run == run && front[k].line.number < lines[0].number
  }

  lemma {:induction false} TwoPartsAt(
      front: seq<Entry>, lines: seq<Line>, emitted: seq<Line>, run: nat, bound: nat, k: nat)
    requires Leftover(front, emitted) && OfRun(emitted, lines, run) && FitsBefore(front, lines, run)
    requires forall i | 0 <= i < |lines| :: lines[i].number <= bound
    requires k < |front| + |lines|
    ensures var entry := (front + ShownAll(lines))[k];
            entry.Shown? ==>
              WasEmitted(emitted, entry.line) && entry.line.number <= bound && entry.line.run == run
  {
    if k >= |front| {
      assert (front + ShownAll(lines))[k] == Shown(lines[k - |front|]);
    }
  }

  lemma {:induction false} TwoPartsAscend(
      front: seq<Entry>, lines: seq<Line>, emitted: seq<Line>, run: nat, i: nat, j: nat)
    requires Leftover(front, emitted) && Ascends(lines) && FitsBefore(front, lines, run)
    requires i < j < |front| + |lines|
    ensures var log := front + ShownAll(lines);
            log[i].Shown? && log[j].Shown? ==> log[i].line.number < log[j].line.number
  {
    var log := front + ShownAll(lines);
    if j >= |front| {
      assert log[j] == Shown(lines[j - |front|]);
      if i >= |front| {
        assert log[i] == Shown(lines[i - |front|]);
      } else if log[i].Shown? {
        assert front[i].line.number < lines[0].number <= lines[j - |front|].number;
      }
    }
  }

  /** A log of two parts, the second all above the first. */
  lemma {:induction false} TwoPartsAreTruthful(
      v: View, front: seq<Entry>, lines: seq<Line>, emitted: seq<Line>, run: nat)
    requires v.log == front + ShownAll(lines) && |v.log| <= CONSOLE_MAX_LINES && v.run == Some(run)
    requires Leftover(front, emitted) && OfRun(emitted, lines, run) && Ascends(lines) && FitsBefore(front, lines, run)
    requires forall k | 0 <= k < |lines| :: lines[k].number <= v.watermark
    ensures Truthful(v, emitted)
  {
    forall k | 0 <= k < |v.log| && v.log[k].Shown?
      ensures WasEmitted(emitted, v.log[k].line) && v.log[k].line.number <= v.watermark
           && v.run == Some(v.log[k].line.run)
    {
      TwoPartsAt(front, lines, emitted, run, v.watermark, k);
    }
    forall i, j | 0 <= i < j < |v.log| && v.log[i].Shown? && v.log[j].Shown?
      ensures v.log[i].line.number < v.log[j].line.number
    {
      TwoPartsAscend(front, lines, emitted, run, i, j);
    }
  }

  lemma SurvivorsAreTruthful(s: State)
    requires Safe(s) && s.loading && Leftover(s.view.log, s.emitted) && SurvivorsFit(s)
    ensures Truthful(Reopened(s).view, s.emitted)
  {
    var v, replay, front := Reopened(s).view, Tail(s.engine, JOIN_REPLAY), s.view.log[PushedOut(s)..];
    ReopenedView(s);
    TailOfRun(s.engine, s.emitted, JOIN_REPLAY);
    ReplayIsNewest(s.engine, s.emitted, JOIN_REPLAY);
    forall k | 0 <= k < |replay| ensures replay[k].number <= v.watermark {
      TailAt(s.engine, s.emitted, JOIN_REPLAY, k);
    }
    assert forall k | 0 <= k < |front| :: front[k] == s.view.log[PushedOut(s) + k];
    TwoPartsAreTruthful(v, front, replay, s.emitted, s.engine.run);
  }

  lemma TruthfulSurvivorsFit(s: State)
    requires Safe(s) && s.loading && Truthful(Reopened(s).view, s.emitted)
    ensures SurvivorsFit(s)
  {
    var v, replay, d := Reopened(s).view, Tail(s.engine, JOIN_REPLAY), PushedOut(s);
    ReopenedView(s);
    forall k | d <= k < |s.view.log| && s.view.log[k].Shown?
      ensures replay != [] && s.view.log[k].line.run == s.engine.run && s.view.log[k].line.number < replay[0].number
    {
      assert v.log[k - d] == s.view.log[k];
      if replay != [] {
        assert v.log[|s.view.log| - d] == Shown(replay[0]);
      }
    }
  }

  /**
   * A view opened again without the reading is truthful behind the join if and only
   * if the leftovers the replay does not push out are of the present run and numbered
   * below the replay's first line.
   */
  lemma {:induction false} ReopenedIsTruthfulIff(evs: seq<Event>)
    requires IsOrderlyRun(evs) && After(evs).loading
    ensures Truthful(Reopened(After(evs)).view, After(evs).emitted) <==> SurvivorsFit(After(evs))
  {
    RunsAreSafe(evs);
    LoadingShowsLeftover(evs);
    if SurvivorsFit(After(evs)) {
      SurvivorsAreTruthful(After(evs));
    } else if Truthful(Reopened(After(evs)).view, After(evs).emitted) {
      TruthfulSurvivorsFit(After(evs));
    }
  }

  ghost predicate ShownTwice(v: View, line: Line) {
    exists i, j :: 0 <= i < j < |v.log| && v.log[i] == Shown(line) && v.log[j] == Shown(line)
  }

  lemma TwiceInNewest<T>(a: seq<T>, b: seq<T>, x: T, k: nat, i: nat, n: nat) returns (p: nat, q: nat)
    requires k < |a| && a[k] == x && i < |b| && b[i] == x && |a| + |b| <= k + n
    ensures p < q < |Newest(a + b, n)| && Newest(a + b, n)[p] == x && Newest(a + b, n)[q] == x
  {
    var all := a + b;
    var gone := |all| - |Newest(all, n)|;
    p, q := k - gone, |a| + i - gone;
    NewestKeeps(all, n, p);
    NewestKeeps(all, n, q);
  }

  /** So every replayed line that was left on the screen, and still fits the log, is there twice. */
  lemma LeftoverIsShownTwice(s: State, k: nat, i: nat)
    requires Safe(s) && s.loading && k < |s.view.log| && i < |Tail(s.engine, JOIN_REPLAY)|
    requires s.view.log[k] == Shown(Tail(s.engine, JOIN_REPLAY)[i])
    requires |s.view.log| + |Tail(s.engine, JOIN_REPLAY)| <= k + CONSOLE_MAX_LINES
    ensures ShownTwice(Reopened(s).view, Tail(s.engine, JOIN_REPLAY)[i])
  {
    var replay := Tail(s.engine, JOIN_REPLAY);
    var p, q := TwiceInNewest(s.view.log, ShownAll(replay), Shown(replay[i]), k, i, CONSOLE_MAX_LINES);
    ReopenedLog(s);
  }
}
