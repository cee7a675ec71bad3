/// The console: an engine that numbers lines and counts runs, and a client that
/// merges a REST reading, a join replay and live lines by a watermark and a run.
module Console {
  import opened Prelude

  const HISTORY_LIMIT: nat := 500
  const CONSOLE_MAX_LINES: nat := 500
  const JOIN_REPLAY: nat := 100
  const REST_LIMIT: nat := 200

  datatype Stream = SystemLine | Stdout | Stderr

  /** `run` is the run in force when the line was emitted; it does not travel with the line. */
  datatype Line = Line(number: nat, run: nat, stream: Stream, text: string)

  // ----- the engine's slot -----

  datatype Engine = Engine(history: seq<Line>, number: nat, run: nat)

  const NEW_ENGINE := Engine([], 0, 0)

  function Newest<T>(s: seq<T>, n: nat): (t: seq<T>)
    ensures |t| <= n && |t| <= |s|
  {
    if |s| <= n then s else s[|s| - n..]
  }

  function NextLine(e: Engine, stream: Stream, text: string): Line {
    Line(e.number + 1, e.run, stream, text)
  }

  function Emitted(e: Engine, stream: Stream, text: string): Engine {
    Engine(Newest(e.history + [NextLine(e, stream, text)], HISTORY_LIMIT), e.number + 1, e.run)
  }

  function RunBegun(e: Engine): Engine {
    Engine([], e.number, e.run + 1)
  }

  /** `limit` is clamped to what the engine keeps. */
  function Tail(e: Engine, limit: int): (lines: seq<Line>) {
    Newest(e.history, if limit < 1 then 1 else if limit > HISTORY_LIMIT then HISTORY_LIMIT else limit)
  }

  class EngineSlot {
    var history: seq<Line>
    var number: nat
    var run: nat

    function Contents(): Engine
      reads this
    {
      Engine(history, number, run)
    }

    constructor ()
      ensures Contents() == NEW_ENGINE
    {
      history, number, run := [], 0, 0;
    }

    method Emit(stream: Stream, text: string) returns (line: Line)
      modifies this
      ensures Contents() == Emitted(old(Contents()), stream, text)
      ensures line == NextLine(old(Contents()), stream, text)
    {
      number := number + 1;
      line := Line(number, run, stream, text);
      history := history + [line];
      if |history| > HISTORY_LIMIT {
        history := history[|history| - HISTORY_LIMIT..];
      }
    }

    /** The newest lines, as `slice` with a negative start takes them. */
    method Recent(limit: int) returns (lines: seq<Line>)
      ensures lines == Tail(Contents(), limit)
    {
      var n := if limit < 1 then 1 else limit;
      n := if n > HISTORY_LIMIT then HISTORY_LIMIT else n;
      lines := if |history| <= n then history else history[|history| - n..];
    }

    method BeginRun()
      modifies this
      ensures Contents() == RunBegun(old(Contents()))
    {
      history := [];
      run := run + 1;
    }
  }

  // ----- the client's view -----

  datatype Entry = Notice | Shown(line: Line)

  datatype View = View(log: seq<Entry>, watermark: nat, run: Option<nat>)

  const BLANK := View([], 0, None)

  datatype Message =
    | History(lines: seq<Line>, run: nat)
    | LineSent(line: Line)
    | Reset(run: nat)

  function AppendOne(v: View, line: Line): View {
    if line.number <= v.watermark then v
    else View(Newest(v.log + [Shown(line)], CONSOLE_MAX_LINES), line.number, v.run)
  }

  function AppendAll(v: View, lines: seq<Line>): View {
    if lines == [] then v else AppendOne(AppendAll(v, Init(lines)), Last(lines))
  }

  function Adopt(v: View, run: nat): View {
    if v.run == Some(run) then v
    else v.(run := Some(run), log := if v.run.None? then v.log else [])
  }

  function Receive(v: View, m: Message): View {
    match m
    case History(lines, run) => AppendAll(Adopt(v, run), lines)
    case LineSent(line) => AppendOne(v, line)
    case Reset(run) => Adopt(v, run)
  }

  /** The REST answer: the run is adopted, then the log starts again from the lines read. */
  function Restored(v: View, lines: seq<Line>, run: nat): View {
    AppendAll(Adopt(v, run).(log := [], watermark := 0), lines)
  }

  /** The REST answer when the console may not be read. */
  function Denied(v: View): View {
    v.(log := [Notice], watermark := 0)
  }

  /** Leaving a server does not clear the log. */
  function Left(v: View): View {
    v.(watermark := 0, run := None)
  }

  class ConsoleClient {
    var log: seq<Entry>
    var consoleSeq: nat
    var consoleRun: Option<nat>
    var serverGeneration: nat

    function Contents(): View
      reads this
    {
      View(log, consoleSeq, consoleRun)
    }

    constructor ()
      ensures Contents() == BLANK
    {
      log, consoleSeq, consoleRun, serverGeneration := [], 0, None, 0;
    }

    method AppendLine(entry: Entry)
      modifies this`log
      ensures log == Newest(old(log) + [entry], CONSOLE_MAX_LINES)
    {
      log := log + [entry];
      ghost var all := log;
      while |log| > CONSOLE_MAX_LINES
        invariant |log| <= |all| && log == all[|all| - |log|..]
        invariant |all| > CONSOLE_MAX_LINES ==> |log| >= CONSOLE_MAX_LINES
        invariant |all| <= CONSOLE_MAX_LINES ==> log == all
      {
        log := log[1..];
      }
    }

    /** A line from a superseded load or an abandoned socket is dropped. */
    method AppendConsoleLine(line: Line, generation: Option<nat>)
      modifies this`log, this`consoleSeq
      ensures Contents() == if generation.Some? && generation.value != serverGeneration then old(Contents())
                            else AppendOne(old(Contents()), line)
    {
      if generation.Some? && generation.value != serverGeneration {
        return;
      }
      if line.number <= consoleSeq {
        return;
      }
      consoleSeq := line.number;
      AppendLine(Shown(line));
    }

    method AppendConsoleLines(lines: seq<Line>, generation: Option<nat>)
      modifies this`log, this`consoleSeq
      ensures Contents() == if generation.Some? && generation.value != serverGeneration then old(Contents())
                            else AppendAll(old(Contents()), lines)
    {
      ghost var start := Contents();
      var i := 0;
      while i < |lines|
        invariant 0 <= i <= |lines|
        invariant Contents() == if generation.Some? && generation.value != serverGeneration then start
                                else AppendAll(start, lines[..i])
      {
        AppendConsoleLine(lines[i], generation);
        i := i + 1;
        assert Init(lines[..i]) == lines[..i - 1];
      }
      assert lines[..i] == lines;
    }

    method ResetConsoleHistory(lines: seq<Line>)
      modifies this`log, this`consoleSeq
      ensures Contents() == AppendAll(View([], 0, consoleRun), lines)
    {
      log := [];
      consoleSeq := 0;
      AppendConsoleLines(lines, None);
    }

    method AdoptRun(run: nat)
      modifies this`log, this`consoleRun
      ensures Contents() == Adopt(old(Contents()), run)
    {
      if consoleRun.None? {
        consoleRun := Some(run);
        return;
      }
      if run == consoleRun.value {
        return;
      }
      consoleRun := Some(run);
      log := [];
    }

    /** The answer to the REST read; `None` stands for any status but 200. */
    method RefreshConsoleHistory(answer: Option<(seq<Line>, nat)>, generation: nat)
      modifies this`log, this`consoleSeq, this`consoleRun
      ensures Contents() == if generation != serverGeneration then old(Contents())
                            else if answer.None? then Denied(old(Contents()))
                            else Restored(old(Contents()), answer.value.0, answer.value.1)
    {
      if generation != serverGeneration {
        return;
      }
      if answer.None? {
        ResetConsoleHistory([]);
        AppendLine(Notice);
        return;
      }
      AdoptRun(answer.value.1);
      ResetConsoleHistory(answer.value.0);
    }

    /** The history handler adopts the run without looking at the generation. */
    method OnMessage(m: Message, generation: nat)
      modifies this`log, this`consoleSeq, this`consoleRun
      ensures generation == serverGeneration ==> Contents() == Receive(old(Contents()), m)
      ensures generation != serverGeneration ==>
                Contents() == if m.History? then Adopt(old(Contents()), m.run) else old(Contents())
    {
      match m
      case History(lines, run) =>
        AdoptRun(run);
        AppendConsoleLines(lines, Some(generation));
      case LineSent(line) =>
        AppendConsoleLine(line, Some(generation));
      case Reset(run) =>
        if generation == serverGeneration {
          AdoptRun(run);
        }
    }

    method LeaveServer()
      modifies this
      ensures Contents() == Left(old(Contents())) && serverGeneration == old(serverGeneration) + 1
    {
      serverGeneration := serverGeneration + 1;
      consoleSeq := 0;
      consoleRun := None;
    }
  }
}
