/// How much of the console a view shows: what the engine keeps of a run, what a
/// reading and a replay hold, and what a view opened by both shows.
module ConsoleViews {
  import opened Prelude
  import opened Console
  import opened ConsoleProtocol

  function Least(a: nat, b: nat): nat {
    if a < b then a else b
  }

  /** The end of the history, as long as asked for or as there is. */
  predicate IsEnd(lines: seq<Line>, history: seq<Line>, n: nat) {
    lines == history[|history| - Least(n, |history|)..]
  }

  /** A reading or replay with a limit from 1 to 500 holds that many lines, or all there are, and the newest ones. */
  lemma TailIsEnd(e: Engine, limit: nat)
    ensures 1 <= limit <= HISTORY_LIMIT ==> IsEnd(Tail(e, limit), e.history, limit)
    ensures limit < 1 ==> IsEnd(Tail(e, limit), e.history, 1)
    ensures limit > HISTORY_LIMIT ==> IsEnd(Tail(e, limit), e.history, HISTORY_LIMIT)
  {
  }

  // ----- what the engine keeps -----

  /** The newest 500 lines of the present run are in the history. */
  predicate HistoryIsFull(e: Engine, emitted: seq<Line>) {
    forall i | 0 <= i < |emitted| && |emitted| <= i + HISTORY_LIMIT && emitted[i].run == e.run ::
      |emitted| - |e.history| <= i
  }

  lemma EmitKeepsFull(e: Engine, emitted: seq<Line>, stream: Stream, text: string)
    requires EngineOk(e, emitted) && HistoryIsFull(e, emitted)
    ensures HistoryIsFull(Emitted(e, stream, text), emitted + [NextLine(e, stream, text)])
  {
  }

  lemma StepKeepsFull(s: State, ev: Event)
    requires Safe(s) && Enabled(s, ev) && HistoryIsFull(s.engine, s.emitted)
    ensures HistoryIsFull(Step(s, ev).engine, Step(s, ev).emitted)
  {
    if ev.Emit? {
      EmitKeepsFull(s.engine, s.emitted, ev.stream, ev.text);
    } else if ev.Start? {
      assert Step(s, ev).emitted == s.emitted && forall i | 0 <= i < |s.emitted| :: s.emitted[i].run <= s.engine.run;
    } else {
      assert Step(s, ev).engine == s.engine && Step(s, ev).emitted == s.emitted;
    }
  }

  lemma {:induction false} RunsKeepFull(evs: seq<Event>)
    requires IsOrderlyRun(evs)
    ensures HistoryIsFull(After(evs).engine, After(evs).emitted)
  {
    if evs != [] {
      RunsKeepFull(Init(evs));
      RunsAreSafe(Init(evs));
      StepKeepsFull(After(Init(evs)), Last(evs));
    }
  }

  /** In every run the history is exactly the newest 500 lines of the present run, or all of them if there are fewer. */
  lemma {:induction false} HistoryHoldsRun(evs: seq<Event>)
    requires IsOrderlyRun(evs)
    ensures forall line :: line in After(evs).engine.history <==>
              && WasEmitted(After(evs).emitted, line) && line.run == After(evs).engine.run
              && |After(evs).emitted| < line.number + HISTORY_LIMIT
  {
    RunsAreSafe(evs);
    RunsKeepFull(evs);
    FullMeans(After(evs).engine, After(evs).emitted);
  }

  lemma FullMeans(e: Engine, emitted: seq<Line>)
    requires EngineOk(e, emitted) && HistoryIsFull(e, emitted)
    ensures forall line :: line in e.history <==>
              WasEmitted(emitted, line) && line.run == e.run && |emitted| < line.number + HISTORY_LIMIT
  {
    forall line | line in e.history
      ensures WasEmitted(emitted, line) && line.run == e.run && |emitted| < line.number + HISTORY_LIMIT
    {
      var k :| 0 <= k < |e.history| && e.history[k] == line;
      HistoryAt(e, emitted, k);
    }
    forall line | WasEmitted(emitted, line) && line.run == e.run && |emitted| < line.number + HISTORY_LIMIT
      ensures line in e.history
    {
      var i := line.number - 1;
      assert emitted[i] == line && |emitted| - |e.history| <= i;
      assert e.history[i - (|emitted| - |e.history|)] == line;
    }
  }

  // ----- what a view shows behind a reading -----

  lemma {:induction false} RestoredShows(v: View, lines: seq<Line>, r: nat)
    requires Ascends(lines) && |lines| <= REST_LIMIT && forall k | 0 <= k < |lines| :: lines[k].number > 0
    ensures Restored(v, lines, r).log == ShownAll(lines) && Restored(v, lines, r).run == Some(r)
    ensures Restored(v, lines, r).watermark == if lines == [] then 0 else Last(lines).number
  {
    var blank := Adopt(v, r).(log := [], watermark := 0);
    AppendAllLog(blank, lines);
    RunOfAppend(blank, lines);
    assert [] + ShownAll(lines) == ShownAll(lines);
  }

  lemma {:induction false} PrefixIsOrderly(evs: seq<Event>, k: nat)
    requires IsOrderlyRun(evs) && k <= |evs|
    ensures IsOrderlyRun(evs[..k])
    decreases |evs|
  {
    if k == |evs| {
      assert evs[..k] == evs;
    } else {
      PrefixIsOrderly(Init(evs), k);
      assert Init(evs)[..k] == evs[..k];
    }
  }

  /** A pending reading was served at some step, from the engine as it was then. */
  predicate ServedAt(evs: seq<Event>, k: nat)
    requires IsOrderlyRun(evs)
  {
    && k < |evs| && evs[k].ServeReading? && IsOrderlyRun(evs[..k])
    && var e := After(evs[..k]).engine;
       After(evs).reading == Some((Tail(e, REST_LIMIT), e.run))
  }

  lemma ReadingStays(s: State, ev: Event)
    requires Enabled(s, ev) && !ev.ServeReading? && Step(s, ev).reading.Some?
    ensures s.reading == Step(s, ev).reading
  {
  }

  lemma {:induction false} ReadingIsServed(evs: seq<Event>) returns (k: nat)
    requires IsOrderlyRun(evs) && After(evs).reading.Some?
    ensures ServedAt(evs, k)
  {
    var ev := Last(evs);
    if ev.ServeReading? {
      k := |evs| - 1;
      assert evs[..k] == Init(evs);
    } else {
      ReadingStays(After(Init(evs)), ev);
      k := ReadingIsServed(Init(evs));
      assert evs[..k] == Init(evs)[..k];
    }
  }

  /**
   * In every run, a view behind an answered reading shows exactly the newest 200 lines
   * the engine held when it was served, or all of them if there were fewer.
   */
  lemma AnswerShowsReading(evs: seq<Event>) returns (k: nat)
    requires IsOrderlyRun(evs) && Enabled(After(evs), AnswerReading)
    ensures ServedAt(evs, k)
    ensures var e, v := After(evs[..k]).engine, Step(After(evs), AnswerReading).view;
            && v.log == ShownAll(e.history[|e.history| - Least(REST_LIMIT, |e.history|)..])
            && v.run == Some(e.run)
  {
    k := ReadingIsServed(evs);
    RunsAreSafe(evs);
    var s, e := After(evs), After(evs[..k]).engine;
    TailIsEnd(e, REST_LIMIT);
    RestoredShows(s.view, s.reading.value.0, s.reading.value.1);
  }

  // ----- what a view shows behind a join -----

  /** A join brings every line among the newest 100 that lies above the watermark. */
  lemma {:induction false} JoinShowsAbove(evs: seq<Event>, i: nat)
    requires IsCoveredRun(evs) && Enabled(After(evs), ServeJoin)
    requires var e := After(evs).engine; |e.history| - Least(JOIN_REPLAY, |e.history|) <= i < |e.history|
    requires Drained(After(evs).view, After(evs).socket.value.queue).watermark < After(evs).engine.history[i].number
    ensures var t := Step(After(evs), ServeJoin);
            Shows(Drained(t.view, t.socket.value.queue), After(evs).engine.history[i])
  {
    var s := After(evs);
    var e, queue := s.engine, s.socket.value.queue;
    RunsAreSafe(evs);
    SubscriptionIsComplete(evs);
    TailIsEnd(e, JOIN_REPLAY);
    DrainedOk(s.view, queue, s.emitted, e.run);
    TailOfRun(e, s.emitted, JOIN_REPLAY);
    SendFits(s.view, queue, History(Tail(e, JOIN_REPLAY), e.run), s.emitted, e.run);
    HistoryAt(e, s.emitted, i);
    HistoryShows(Drained(s.view, queue), e, s.emitted, JOIN_REPLAY, i);
  }

  /** From the reading on, the view only waits for its answer and opens its socket, while the engine goes on. */
  predicate Opens(evs: seq<Event>, k: nat) {
    && k < |evs| && evs[k].ServeReading?
    && forall j | k < j < |evs| :: evs[j].Emit? || evs[j].Start? || evs[j].AnswerReading? || evs[j].Connect?
  }

  /** Of the lines held now, the newest that had been emitted by number `n` are in the reading. */
  predicate Holds(e: Engine, lines: seq<Line>, n: nat) {
    && (forall h | h in e.history && h.number <= n && e.number < h.number + REST_LIMIT :: h in lines)
    && (lines == [] ==> forall h | h in e.history :: n < h.number)
    && n <= e.number
  }

  predicate Opening(s: State, lines: seq<Line>, r: nat, n: nat) {
    && Holds(s.engine, lines, n)
    && (s.loading ==> s.reading == Some((lines, r)))
    && (!s.loading ==>
          && s.reading == None && s.view.log == ShownAll(lines) && s.view.watermark == (if lines == [] then 0 else n)
          && (s.socket.Some? ==> s.socket.value == Socket([], false)))
  }

  lemma EmitHolds(e: Engine, lines: seq<Line>, n: nat, stream: Stream, text: string)
    requires Holds(e, lines, n)
    ensures Holds(Emitted(e, stream, text), lines, n)
  {
    var e', line := Emitted(e, stream, text), NextLine(e, stream, text);
    assert forall h | h in e'.history :: h in e.history || h == line;
  }

  lemma ServedHolds(e: Engine, emitted: seq<Line>)
    requires EngineOk(e, emitted)
    ensures Holds(e, Tail(e, REST_LIMIT), e.number)
  {
    var lines := Tail(e, REST_LIMIT);
    TailIsEnd(e, REST_LIMIT);
    forall h | h in e.history && e.number < h.number + REST_LIMIT ensures h in lines {
      var k :| 0 <= k < |e.history| && e.history[k] == h;
      HistoryAt(e, emitted, k);
      var i := ReplayCovers(e, emitted, REST_LIMIT, k);
    }
  }

  lemma StepKeepsOpening(s: State, ev: Event, lines: seq<Line>, r: nat, n: nat)
    requires Safe(s) && Enabled(s, ev) && Opening(s, lines, r, n)
    requires ev.Emit? || ev.Start? || ev.AnswerReading? || ev.Connect?
    requires Ascends(lines) && |lines| <= REST_LIMIT && forall k | 0 <= k < |lines| :: 0 < lines[k].number
    requires lines != [] ==> Last(lines).number == n
    ensures Opening(Step(s, ev), lines, r, n)
  {
    if ev.Emit? {
      EmitHolds(s.engine, lines, n, ev.stream, ev.text);
    } else if ev.AnswerReading? {
      RestoredShows(s.view, lines, r);
    }
  }

  lemma {:induction false} ReadingIsOrdered(e: Engine, emitted: seq<Line>)
    requires EngineOk(e, emitted)
    ensures var lines := Tail(e, REST_LIMIT);
            && Ascends(lines) && |lines| <= REST_LIMIT && (forall k | 0 <= k < |lines| :: 0 < lines[k].number)
            && (lines != [] ==> Last(lines).number == e.number)
  {
    var lines := Tail(e, REST_LIMIT);
    TailOfRun(e, emitted, REST_LIMIT);
    ReplayIsNewest(e, emitted, REST_LIMIT);
    if lines != [] {
      TailAt(e, emitted, REST_LIMIT, |lines| - 1);
    }
  }

  lemma {:induction false} OpeningHolds(evs: seq<Event>, k: nat)
    requires IsOrderlyRun(evs) && Opens(evs, k) && IsOrderlyRun(evs[..k]) && After(evs[..k]).loading
    ensures var e := After(evs[..k]).engine;
            Opening(After(evs), Tail(e, REST_LIMIT), e.run, e.number)
    decreases |evs|
  {
    var s := After(evs[..k]);
    var lines := Tail(s.engine, REST_LIMIT);
    RunsAreSafe(evs[..k]);
    if k == |evs| - 1 {
      assert evs[..k] == Init(evs);
      ServedHolds(s.engine, s.emitted);
    } else {
      assert Init(evs)[..k] == evs[..k];
      OpeningHolds(Init(evs), k);
      RunsAreSafe(Init(evs));
      ReadingIsOrdered(s.engine, s.emitted);
      StepKeepsOpening(After(Init(evs)), Last(evs), lines, s.engine.run, s.engine.number);
    }
  }

  lemma {:induction false} ReadShows(v: View, lines: seq<Line>, h: Line)
    requires v.log == ShownAll(lines) && h in lines
    ensures Shows(v, h)
  {
    var i :| 0 <= i < |lines| && lines[i] == h;
    assert v.log[i] == Shown(h);
  }

  /**
   * A view opened by a reading and then a join shows, once the replay has arrived, all
   * of the newest 100 lines the engine held at the join, or all it held, whatever was
   * emitted and however often the server was started in between.
   */
  lemma {:induction false} OpenedViewShows(evs: seq<Event>, k: nat, i: nat)
    requires IsOrderlyRun(evs) && Opens(evs, k) && IsOrderlyRun(evs[..k]) && After(evs[..k]).loading
    requires Enabled(After(evs), ServeJoin)
    requires var e := After(evs).engine; |e.history| - Least(JOIN_REPLAY, |e.history|) <= i < |e.history|
    ensures var t := Step(After(evs), ServeJoin);
            Shows(Drained(t.view, t.socket.value.queue), After(evs).engine.history[i])
  {
    var s, lines, n := After(evs), Tail(After(evs[..k]).engine, REST_LIMIT), After(evs[..k]).engine.number;
    var h := s.engine.history[i];
    RunsAreSafe(evs);
    OpeningHolds(evs, k);
    HistoryAt(s.engine, s.emitted, i);
    if h.number <= s.view.watermark {
      ReadShows(s.view, lines, h);
    }
    ReplayKeeps(s, i);
  }

  lemma ReplayArrives(s: State)
    requires s.socket == Some(Socket([], false))
    ensures var t := Step(s, ServeJoin);
            Drained(t.view, t.socket.value.queue) == Receive(s.view, History(Tail(s.engine, JOIN_REPLAY), s.engine.run))
  {
    var m := History(Tail(s.engine, JOIN_REPLAY), s.engine.run);
    assert [] + [m] == [m] && [m][1..] == [];
  }

  /** A replay drops no recent line. */
  lemma ReplayKeepsShown(v: View, e: Engine, emitted: seq<Line>, i: nat)
    requires ViewOk(v, emitted, e.run) && NoticeFirst(v) && EngineOk(e, emitted)
    requires i < |e.history| && Shows(v, e.history[i])
    ensures Shows(Receive(v, History(Tail(e, JOIN_REPLAY), e.run)), e.history[i])
  {
    AdoptOk(v, e.run, emitted, e.run);
    TailOfRun(e, emitted, JOIN_REPLAY);
    ReplayIsNewest(e, emitted, JOIN_REPLAY);
    RecentAt(e, emitted, i);
    AdoptShows(v, e.run, emitted, e.run, e.history[i]);
    AppendAllShowsIff(Adopt(v, e.run), Tail(e, JOIN_REPLAY), emitted, e.run, 0, e.history[i]);
  }

  /** With nothing in flight, a replay shows what is above the watermark and drops no recent line. */
  lemma ReplayKeeps(s: State, i: nat)
    requires Safe(s) && !s.loading && NoticeFirst(s.view) && s.socket == Some(Socket([], false))
    requires |s.engine.history| - Least(JOIN_REPLAY, |s.engine.history|) <= i < |s.engine.history|
    requires s.engine.history[i].number <= s.view.watermark ==> Shows(s.view, s.engine.history[i])
    ensures var t := Step(s, ServeJoin); Shows(Drained(t.view, t.socket.value.queue), s.engine.history[i])
  {
    ReplayArrives(s);
    HistoryAt(s.engine, s.emitted, i);
    TailIsEnd(s.engine, JOIN_REPLAY);
    if s.view.watermark < s.engine.history[i].number {
      HistoryShows(s.view, s.engine, s.emitted, JOIN_REPLAY, i);
    } else {
      ReplayKeepsShown(s.view, s.engine, s.emitted, i);
    }
  }

  // ----- what a subscription owes -----

  /** A line of the present subscription was dropped. */
  predicate Dropped(evs: seq<Event>)
    requires IsRun(evs)
  {
    && evs != [] && !Last(evs).ServeJoin?
    && (Dropped(Init(evs)) || (Last(evs).Emit? && !Last(evs).delivered && Subscribed(After(Init(evs)))))
  }

  /** A subscription counts as unbroken if and only if no line was dropped since its join. */
  lemma {:induction false} IntactIff(evs: seq<Event>)
    requires IsRun(evs) && Subscribed(After(evs))
    ensures After(evs).intact <==> !Dropped(evs)
  {
    if !Last(evs).ServeJoin? {
      StaysSubscribed(After(Init(evs)), Last(evs));
      IntactIff(Init(evs));
    }
  }

  lemma {:induction false} StaysSubscribed(s: State, ev: Event)
    requires Enabled(s, ev) && Subscribed(Step(s, ev)) && !ev.ServeJoin?
    ensures Subscribed(s)
    ensures Step(s, ev).intact == (s.intact && !(ev.Emit? && !ev.delivered))
  {
  }

  /**
   * What it owes begins, at a join, no later than any of the newest 100 lines above the
   * watermark, and at a start with the first line of the new run; no other step moves it.
   */
  lemma {:induction false} OwedFrom(evs: seq<Event>, ev: Event)
    requires IsOrderlyRun(evs) && Enabled(After(evs), ev) && Orderly(After(evs), ev)
    ensures var s, t := After(evs), Step(After(evs), ev);
            && (ev.ServeJoin? ==>
                  forall i | |s.engine.history| - Least(JOIN_REPLAY, |s.engine.history|) <= i < |s.engine.history|
                          && Drained(s.view, s.socket.value.queue).watermark < s.engine.history[i].number ::
                    t.base <= s.engine.history[i].number)
            && (ev.Start? && Subscribed(s) ==> t.base == s.engine.number + 1)
            && (Subscribed(s) && !ev.ServeJoin? && !ev.Start? ==> t.base == s.base)
  {
    RunsAreSafe(evs);
    if ev.ServeJoin? {
      JoinOwes(After(evs));
    }
  }

  /** The replay's first line. */
  lemma {:induction false} ReplayStarts(e: Engine, emitted: seq<Line>, i: nat)
    requires EngineOk(e, emitted) && |e.history| - Least(JOIN_REPLAY, |e.history|) <= i < |e.history|
    ensures |Tail(e, JOIN_REPLAY)| <= e.number
    ensures e.number + 1 - |Tail(e, JOIN_REPLAY)| <= e.history[i].number
  {
    TailIsEnd(e, JOIN_REPLAY);
    HistoryAt(e, emitted, i);
  }

  lemma {:induction false} JoinOwes(s: State)
    requires Safe(s) && s.socket.Some?
    ensures forall i | |s.engine.history| - Least(JOIN_REPLAY, |s.engine.history|) <= i < |s.engine.history|
                    && Drained(s.view, s.socket.value.queue).watermark < s.engine.history[i].number ::
              Join(s).base <= s.engine.history[i].number
  {
    forall i | |s.engine.history| - Least(JOIN_REPLAY, |s.engine.history|) <= i < |s.engine.history|
            && Drained(s.view, s.socket.value.queue).watermark < s.engine.history[i].number
      ensures Join(s).base <= s.engine.history[i].number
    {
      ReplayStarts(s.engine, s.emitted, i);
    }
  }

  /** Who has unsubscribed or closed the socket is sent nothing more, neither lines nor resets. */
  lemma {:induction false} LeftHearsNothing(s: State, ev: Event, stream: Stream, text: string, delivered: bool)
    requires ev.Unsubscribe? || ev.Disconnect?
    ensures var t := Step(s, ev);
            && !Subscribed(t) && (ev.Disconnect? ==> t.socket.None?)
            && (ev.Unsubscribe? && s.socket.Some? ==> t.socket == Some(Socket(s.socket.value.queue, false)))
            && Step(t, Emit(stream, text, delivered)).socket == t.socket && Step(t, Start).socket == t.socket
            && t.view == s.view && t.engine == s.engine && t.emitted == s.emitted
  {
  }
}
