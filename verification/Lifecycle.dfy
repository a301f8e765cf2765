/** Quitting and closing windows: the browser, the window list and the windows, with handlers that call back. */
module Lifecycle {
  import opened Wrappers

  type Window = nat

  /** Calls in progress, innermost last. All but the last two wait for event handlers. */
  datatype Frame =
    | BeforeQuit                  // Browser::HandleBeforeQuit
    | WillQuit                    // Browser::NotifyAndShutdown
    | QuitEvent                   // Browser::Shutdown
    | AllClosedEvent              // Browser::OnWindowAllClosed, not quitting
    | WillClose(w: Window)        // NativeWindow::CloseWebContents
    | ClosedEvent(w: Window)      // NativeWindow::NotifyWindowClosed
    | QuitTail                    // Browser::Quit, about to close all windows
    | CloseAll(rest: seq<Window>) // WindowList::CloseAllWindows

  datatype Event =
    | Opened(w: Window)
    | BeforeQuitDone(vetoed: bool)
    | WillQuitDone(vetoed: bool)
    | Quit(openWindows: nat)
    | QuitDelivered               // the end of Browser::Shutdown
    | CloseCancelled(w: Window)
    | Reported(w: Window)         // the window's closed event
    | Removed(w: Window)          // taken off the window list
    | Emptied                     // the list has become empty
    | AllClosed
    | AutoWillQuit

  datatype State = State(isQuiting: bool, windows: seq<Window>, closed: set<Window>, everOpened: set<Window>,
                         stack: seq<Frame>, log: seq<Event>)

  const INIT := State(false, [], {}, {}, [], [])

  datatype Action =
    | CallQuit
    | Return(veto: bool)          // the handlers of the innermost event are done
    | Open(w: Window)
    | RequestClose(w: Window)
    | UnloadCancelled(w: Window)  // a page's beforeunload handler keeps the window
    | Gone(w: Window)             // the platform window is gone
    | Continue                    // the code between handlers goes on

  predicate InQuit(stack: seq<Frame>) {
    WillQuit in stack || QuitEvent in stack
  }

  function Top(s: State): Frame
    requires s.stack != []
  {
    s.stack[|s.stack| - 1]
  }

  predicate HandlerOnTop(s: State) {
    s.stack != [] && !Top(s).QuitTail? && !Top(s).CloseAll?
  }

  /** The event loop or an event handler is in control. */
  predicate UserCode(s: State) {
    s.stack == [] || HandlerOnTop(s)
  }

  /** Handlers may veto and call back in, but open no windows while a quit is being delivered. */
  predicate Enabled(s: State, a: Action) {
    match a
    case CallQuit => UserCode(s)
    case Return(_) => HandlerOnTop(s)
    case Open(w) => UserCode(s) && w !in s.everOpened && !InQuit(s.stack)
    case RequestClose(w) => UserCode(s) && w in s.windows
    case UnloadCancelled(w) => UserCode(s) && w in s.windows
    case Gone(w) => UserCode(s) && w in s.everOpened
    case Continue => s.stack != [] && !HandlerOnTop(s)
  }

  function Pop(s: State): State
    requires s.stack != []
  {
    s.(stack := s.stack[..|s.stack| - 1])
  }

  function Push(s: State, f: Frame): State {
    s.(stack := s.stack + [f])
  }

  function Log(s: State, e: Event): State {
    s.(log := s.log + [e])
  }

  function Cancel(s: State, w: Window): State {
    Log(s.(isQuiting := false), CloseCancelled(w))
  }

  function Without(windows: seq<Window>, w: Window): seq<Window> {
    if windows == [] then []
    else
      var rest := Without(windows[..|windows| - 1], w);
      if windows[|windows| - 1] == w then rest else rest + [windows[|windows| - 1]]
  }

  function RemoveWindow(s: State, w: Window): State {
    var s' := Log(s.(windows := Without(s.windows, w)), Removed(w));
    if s'.windows != [] then s'
    else if s'.isQuiting then Push(Log(Log(s', Emptied), AutoWillQuit), WillQuit)
    else Push(Log(Log(s', Emptied), AllClosed), AllClosedEvent)
  }

  function ReturnFrom(s: State, veto: bool): State
    requires HandlerOnTop(s)
  {
    var t := Pop(s);
    match Top(s)
    case BeforeQuit =>
      var t' := Log(t.(isQuiting := !veto), BeforeQuitDone(veto));
      if veto then t'
      else if t.windows == [] then Push(Push(t', QuitTail), WillQuit)
      else Push(t', QuitTail)
    case WillQuit =>
      var t' := Log(t, WillQuitDone(veto));
      if veto then t'.(isQuiting := false)
      else Push(Log(t', Quit(|t.windows|)), QuitEvent)
    case QuitEvent => Log(t.(isQuiting := true), QuitDelivered)
    case AllClosedEvent => t
    case WillClose(w) => if veto then Cancel(t, w) else t
    case ClosedEvent(w) => RemoveWindow(t, w)
  }

  function Apply(s: State, a: Action): State
    requires Enabled(s, a)
  {
    match a
    case CallQuit => Push(s, BeforeQuit)
    case Return(veto) => ReturnFrom(s, veto)
    case Open(w) => Log(s.(windows := s.windows + [w], everOpened := s.everOpened + {w}), Opened(w))
    case RequestClose(w) => Push(s, WillClose(w))
    case UnloadCancelled(w) => Cancel(s, w)
    case Gone(w) =>
      if w in s.closed then s
      else Push(Log(s.(closed := s.closed + {w}), Reported(w)), ClosedEvent(w))
    case Continue =>
      match Top(s)
      case QuitTail => Push(Pop(s), CloseAll(s.windows))
      case CloseAll(rest) =>
        if rest == [] then Pop(s)
        else
          var s' := Push(Pop(s), CloseAll(rest[1..]));
          if rest[0] in s.windows then Push(s', WillClose(rest[0])) else s'
      case _ => s
  }

  function Exec(s: State, run: seq<Action>): Option<State>
    decreases run
  {
    if run == [] then Some(s)
    else if Enabled(s, run[0]) then Exec(Apply(s, run[0]), run[1..])
    else None
  }

  // ---- What the history says

  predicate ArmedAfter(armed: bool, e: Event) {
    match e
    case BeforeQuitDone(vetoed) => !vetoed || armed
    case CloseCancelled(_) => false
    case _ => armed
  }

  /** There was an unvetoed before-quit, and no close has been cancelled since. */
  predicate Armed(log: seq<Event>) {
    log != [] && ArmedAfter(Armed(log[..|log| - 1]), log[|log| - 1])
  }

  predicate FlagAfter(flag: bool, e: Event) {
    match e
    case BeforeQuitDone(vetoed) => !vetoed
    case WillQuitDone(vetoed) => flag && !vetoed
    case CloseCancelled(_) => false
    case QuitDelivered => true
    case _ => flag
  }

  /** Is a quit going on, as the history tells it? */
  predicate QuitFlag(log: seq<Event>) {
    log != [] && FlagAfter(QuitFlag(log[..|log| - 1]), log[|log| - 1])
  }

  function ListedAfter(windows: seq<Window>, e: Event): seq<Window> {
    match e
    case Opened(w) => windows + [w]
    case Removed(w) => Without(windows, w)
    case _ => windows
  }

  /** The windows opened and not yet removed, in order. */
  function Listed(log: seq<Event>): seq<Window> {
    if log == [] then [] else ListedAfter(Listed(log[..|log| - 1]), log[|log| - 1])
  }

  /** What must come next: an emptying after the removal of the last window, and then its answer. */
  function Due(log: seq<Event>): Option<Event> {
    if log == [] then None
    else match log[|log| - 1]
      case Removed(_) => if Listed(log) == [] then Some(Emptied) else None
      case Emptied => Some(if QuitFlag(log) then AutoWillQuit else AllClosed)
      case _ => None
  }

  /** May the event come after this history? */
  predicate Fits(log: seq<Event>, e: Event) {
    && (Due(log).Some? || e.Emptied? || e.AllClosed? || e.AutoWillQuit? ==> Due(log) == Some(e))
    && (e.Quit? ==>
          e == Quit(0) && log != [] && log[|log| - 1] == WillQuitDone(false) && Armed(log) && Listed(log) == [])
  }

  ghost predicate LogOk(log: seq<Event>) {
    forall i :: 0 <= i < |log| ==> Fits(log[..i], log[i])
  }

  function Count<T(==)>(s: seq<T>, x: T): nat {
    if s == [] then 0
    else Count(s[..|s| - 1], x) + (if s[|s| - 1] == x then 1 else 0)
  }

  /** A window opened is listed or has been removed, never both or twice; one reported closed has been removed
      or is about to be. */
  ghost predicate Counts(s: State, w: Window) {
    && Count(s.windows, w) + Count(s.log, Removed(w)) == (if w in s.everOpened then 1 else 0)
    && Count(s.log, Reported(w)) == (if w in s.closed then 1 else 0)
    && Count(s.stack, ClosedEvent(w)) + Count(s.log, Removed(w)) == Count(s.log, Reported(w))
    && (w in s.closed ==> w in s.everOpened)
  }

  /** While a quit is being delivered, no window is asked to close. */
  ghost predicate StackOrdered(stack: seq<Frame>) {
    forall i, j :: 0 <= i < j < |stack| && (stack[i].WillQuit? || stack[i].QuitEvent?) ==> !stack[j].WillClose?
  }

  /** The flag and the list are what the history says. */
  ghost predicate Told(s: State) {
    LogOk(s.log) && s.isQuiting == QuitFlag(s.log) && s.windows == Listed(s.log)
  }

  /** Nothing is due, and quits are only under way with no window open and under an armed quit. */
  ghost predicate History(s: State) {
    && StackOrdered(s.stack)
    && (InQuit(s.stack) ==> s.windows == [])
    && (InQuit(s.stack) || s.isQuiting ==> Armed(s.log))
    && Told(s) && Due(s.log).None?
  }

  ghost predicate Inv(s: State) {
    && History(s)
    && forall w :: Counts(s, w)
  }

  // ---- Preservation

  lemma LogOkAppend(log: seq<Event>, e: Event)
    requires LogOk(log) && Fits(log, e)
    ensures LogOk(log + [e])
  {
    var log' := log + [e];
    forall i | 0 <= i < |log'| ensures Fits(log'[..i], log'[i]) {
      assert i < |log| ==> log'[..i] == log[..i];
      assert i == |log| ==> log'[..i] == log;
    }
  }

  /** The event happens: it changes the flag and the list and is logged. */
  function After(s: State, e: Event): State {
    s.(isQuiting := FlagAfter(s.isQuiting, e), windows := ListedAfter(s.windows, e), log := s.log + [e])
  }

  lemma Tell(s: State, e: Event)
    requires Told(s) && Fits(s.log, e)
    ensures Told(After(s, e)) && Armed(After(s, e).log) == ArmedAfter(Armed(s.log), e)
    ensures Due(After(s, e).log) == match e
                                    case Removed(w) => if Without(s.windows, w) == [] then Some(Emptied) else None
                                    case Emptied => Some(if s.isQuiting then AutoWillQuit else AllClosed)
                                    case _ => None
  {
    LogOkAppend(s.log, e);
    assert (s.log + [e])[..|s.log|] == s.log;
  }

  lemma CountAppend<T>(s: seq<T>, e: T, x: T)
    ensures Count(s + [e], x) == Count(s, x) + (if e == x then 1 else 0)
  {
    assert (s + [e])[..|s|] == s;
  }

  lemma {:induction false} CountIn<T>(s: seq<T>, x: T)
    ensures Count(s, x) > 0 <==> x in s
  {
    if s == [] {
    } else {
      CountIn(s[..|s| - 1], x);
      assert s == s[..|s| - 1] + [s[|s| - 1]];
    }
  }

  lemma {:induction false} CountWithout(windows: seq<Window>, w: Window, x: Window)
    ensures Count(Without(windows, w), x) == if x == w then 0 else Count(windows, x)
  {
    if windows == [] {
    } else {
      var last := |windows| - 1;
      CountWithout(windows[..last], w, x);
      CountAppend(Without(windows[..last], w), windows[last], x);
    }
  }

  lemma PushCounts(s: State, f: Frame, x: Window)
    requires Counts(s, x) && f != ClosedEvent(x)
    ensures Counts(Push(s, f), x)
  {
    CountAppend(s.stack, f, ClosedEvent(x));
  }

  lemma LogCounts(s: State, e: Event, x: Window)
    requires Counts(s, x) && e != Removed(x) && e != Reported(x)
    ensures Counts(Log(s, e), x)
  {
    CountAppend(s.log, e, Removed(x));
    CountAppend(s.log, e, Reported(x));
  }

  lemma PushFacts(stack: seq<Frame>, f: Frame)
    requires StackOrdered(stack) && (f.WillClose? ==> !InQuit(stack))
    ensures StackOrdered(stack + [f])
    ensures InQuit(stack + [f]) <==> InQuit(stack) || f.WillQuit? || f.QuitEvent?
  {}

  lemma PopFacts(stack: seq<Frame>)
    requires StackOrdered(stack) && stack != []
    ensures var (rest, f) := (stack[..|stack| - 1], stack[|stack| - 1]);
      && StackOrdered(rest)
      && (InQuit(stack) <==> InQuit(rest) || f.WillQuit? || f.QuitEvent?)
      && (f.WillClose? ==> !InQuit(stack))
  {
    assert stack == stack[..|stack| - 1] + [stack[|stack| - 1]];
  }

  lemma HistoryOfPop(s: State)
    requires History(s) && s.stack != []
    ensures History(Pop(s))
    ensures Top(s).WillQuit? || Top(s).QuitEvent? ==> s.windows == [] && Armed(s.log)
    ensures Top(s).WillClose? ==> !InQuit(Pop(s).stack)
  {
    PopFacts(s.stack);
  }

  lemma HistoryOfPush(s: State, f: Frame)
    requires History(s)
    requires f.WillClose? ==> !InQuit(s.stack)
    requires f.WillQuit? || f.QuitEvent? ==> s.windows == [] && Armed(s.log)
    ensures History(Push(s, f))
  {
    PushFacts(s.stack, f);
  }

  /** An event that makes nothing due; it may open a window or cancel a close only while no quit is delivered. */
  lemma HistoryOfEvent(s: State, e: Event)
    requires History(s) && Fits(s.log, e) && !e.Removed? && !e.Emptied?
    requires e.Opened? || e.CloseCancelled? ==> !InQuit(s.stack)
    requires e.QuitDelivered? ==> Armed(s.log)
    ensures History(After(s, e))
  {
    Tell(s, e);
  }

  lemma HistoryOfBeforeQuit(s: State, veto: bool)
    requires History(s) && s.stack != [] && Top(s).BeforeQuit?
    ensures History(ReturnFrom(s, veto))
  {
    HistoryOfPop(s);
    var t := After(Pop(s), BeforeQuitDone(veto));
    HistoryOfEvent(Pop(s), BeforeQuitDone(veto));
    Tell(Pop(s), BeforeQuitDone(veto));
    if !veto {
      HistoryOfPush(t, QuitTail);
      if t.windows == [] {
        HistoryOfPush(Push(t, QuitTail), WillQuit);
      }
    }
  }

  /** Right after an unvetoed will-quit the quit event comes. */
  lemma HistoryOfQuit(s: State)
    requires History(s) && s.windows == [] && Armed(s.log)
    requires s.log != [] && s.log[|s.log| - 1] == WillQuitDone(false)
    ensures History(Push(After(s, Quit(0)), QuitEvent))
  {
    assert Fits(s.log, Quit(0));
    HistoryOfEvent(s, Quit(0));
    Tell(s, Quit(0));
    HistoryOfPush(After(s, Quit(0)), QuitEvent);
  }

  lemma HistoryOfWillQuit(s: State, veto: bool)
    requires History(s) && s.stack != [] && Top(s).WillQuit?
    ensures History(ReturnFrom(s, veto))
  {
    HistoryOfPop(s);
    var t := After(Pop(s), WillQuitDone(veto));
    HistoryOfEvent(Pop(s), WillQuitDone(veto));
    if !veto {
      Tell(Pop(s), WillQuitDone(veto));
      HistoryOfQuit(t);
      WillQuitGoesOn(s);
    }
  }

  lemma WillQuitGoesOn(s: State)
    requires s.stack != [] && Top(s).WillQuit? && s.windows == []
    ensures ReturnFrom(s, false) == Push(After(After(Pop(s), WillQuitDone(false)), Quit(0)), QuitEvent)
  {}

  lemma HistoryOfReturn(s: State, veto: bool)
    requires History(s) && HandlerOnTop(s)
    ensures History(ReturnFrom(s, veto))
  {
    HistoryOfPop(s);
    match Top(s)
    case BeforeQuit => HistoryOfBeforeQuit(s, veto);
    case WillQuit => HistoryOfWillQuit(s, veto);
    case QuitEvent => HistoryOfEvent(Pop(s), QuitDelivered);
    case AllClosedEvent =>
    case WillClose(w) =>
      if veto {
        HistoryOfEvent(Pop(s), CloseCancelled(w));
      }
    case ClosedEvent(w) => HistoryOfRemove(Pop(s), w);
  }

  /** The list has become empty, and that is answered. */
  function Answered(s: State): State {
    After(After(s, Emptied), if s.isQuiting then AutoWillQuit else AllClosed)
  }

  lemma RemovalIs(s: State, w: Window)
    ensures RemoveWindow(s, w)
         == var t := After(s, Removed(w));
            if t.windows != [] then t else Push(Answered(t), if s.isQuiting then WillQuit else AllClosedEvent)
  {}

  lemma HistoryOfAnswer(s: State)
    requires Told(s) && Due(s.log) == Some(Emptied) && s.windows == []
    requires StackOrdered(s.stack) && (InQuit(s.stack) || s.isQuiting ==> Armed(s.log))
    ensures History(Answered(s)) && (s.isQuiting ==> Armed(Answered(s).log)) && Answered(s).windows == []
  {
    Tell(s, Emptied);
    Tell(After(s, Emptied), if s.isQuiting then AutoWillQuit else AllClosed);
  }

  lemma HistoryOfRemove(s: State, w: Window)
    requires History(s)
    ensures History(RemoveWindow(s, w))
  {
    RemovalIs(s, w);
    Tell(s, Removed(w));
    var t := After(s, Removed(w));
    if t.windows == [] {
      HistoryOfAnswer(t);
      HistoryOfPush(Answered(t), if s.isQuiting then WillQuit else AllClosedEvent);
    }
  }

  lemma HistoryOfContinue(s: State)
    requires History(s) && Enabled(s, Continue)
    ensures History(Apply(s, Continue))
  {
    HistoryOfPop(s);
    var t := Pop(s);
    if Top(s).QuitTail? {
      HistoryOfPush(t, CloseAll(s.windows));
    } else if Top(s).rest != [] {
      var w, next := Top(s).rest[0], CloseAll(Top(s).rest[1..]);
      HistoryOfPush(t, next);
      if w in s.windows {
        PushFacts(t.stack, next);
        HistoryOfPush(Push(t, next), WillClose(w));
      }
    }
  }

  lemma HistoryOfSets(s: State, closed: set<Window>, everOpened: set<Window>)
    requires History(s)
    ensures History(s.(closed := closed, everOpened := everOpened))
  {}

  lemma HistoryOfOpen(s: State, w: Window)
    requires History(s) && Enabled(s, Open(w))
    ensures History(Apply(s, Open(w)))
  {
    HistoryOfSets(s, s.closed, s.everOpened + {w});
    HistoryOfEvent(s.(everOpened := s.everOpened + {w}), Opened(w));
  }

  lemma HistoryOfGone(s: State, w: Window)
    requires History(s) && Enabled(s, Gone(w)) && w !in s.closed
    ensures History(Apply(s, Gone(w)))
  {
    var t := s.(closed := s.closed + {w});
    HistoryOfSets(s, s.closed + {w}, s.everOpened);
    HistoryOfEvent(t, Reported(w));
    HistoryOfPush(After(t, Reported(w)), ClosedEvent(w));
  }

  lemma HistoryOfOther(s: State, a: Action)
    requires History(s) && Enabled(s, a) && !a.Return?
    ensures History(Apply(s, a))
  {
    match a
    case CallQuit => HistoryOfPush(s, BeforeQuit);
    case Open(w) => HistoryOfOpen(s, w);
    case RequestClose(w) => HistoryOfPush(s, WillClose(w));
    case UnloadCancelled(w) => HistoryOfEvent(s, CloseCancelled(w));
    case Gone(w) =>
      if w !in s.closed {
        HistoryOfGone(s, w);
      }
    case Continue => HistoryOfContinue(s);
  }

  lemma RemovalCounts(s: State, x: Window) returns (s': State)
    requires HandlerOnTop(s) && Top(s).ClosedEvent? && Counts(s, Top(s).w) && Counts(s, x)
    ensures s' == Log(Pop(s).(windows := Without(s.windows, Top(s).w)), Removed(Top(s).w))
    ensures Counts(s', x)
  {
    var w := Top(s).w;
    s' := Log(Pop(s).(windows := Without(s.windows, w)), Removed(w));
    CountWithout(s.windows, w, x);
    CountAppend(s.log, Removed(w), Removed(x));
    CountAppend(s.log, Removed(w), Reported(x));
  }

  lemma AnswerCounts(s: State, answer: Event, f: Frame, x: Window)
    requires Counts(s, x) && !answer.Removed? && !answer.Reported? && !f.ClosedEvent?
    ensures Counts(Push(Log(Log(s, Emptied), answer), f), x)
  {
    LogCounts(s, Emptied, x);
    LogCounts(Log(s, Emptied), answer, x);
    PushCounts(Log(Log(s, Emptied), answer), f, x);
  }

  lemma RemovalLogs(s: State)
    requires HandlerOnTop(s) && Top(s).ClosedEvent?
    ensures var s' := Log(Pop(s).(windows := Without(s.windows, Top(s).w)), Removed(Top(s).w));
      ReturnFrom(s, false) == if s'.windows != [] then s'
                              else if s.isQuiting then Push(Log(Log(s', Emptied), AutoWillQuit), WillQuit)
                              else Push(Log(Log(s', Emptied), AllClosed), AllClosedEvent)
  {}

  lemma CountsOfRemove(s: State, x: Window)
    requires HandlerOnTop(s) && Top(s).ClosedEvent? && Counts(s, Top(s).w) && Counts(s, x)
    ensures Counts(ReturnFrom(s, false), x)
  {
    RemovalLogs(s);
    var s' := RemovalCounts(s, x);
    if s'.windows == [] {
      if s.isQuiting {
        AnswerCounts(s', AutoWillQuit, WillQuit, x);
      } else {
        AnswerCounts(s', AllClosed, AllClosedEvent, x);
      }
    }
  }

  lemma CountsOfReturn(s: State, veto: bool, x: Window)
    requires HandlerOnTop(s) && !Top(s).ClosedEvent? && Counts(s, x)
    ensures Counts(ReturnFrom(s, veto), x)
  {
    var t := Pop(s);
    PopCounts(s, x);
    match Top(s)
    case BeforeQuit =>
      var t' := t.(isQuiting := !veto);
      LogCounts(t', BeforeQuitDone(veto), x);
      PushCounts(Log(t', BeforeQuitDone(veto)), QuitTail, x);
      PushCounts(Push(Log(t', BeforeQuitDone(veto)), QuitTail), WillQuit, x);
    case WillQuit =>
      LogCounts(t, WillQuitDone(veto), x);
      LogCounts(Log(t, WillQuitDone(veto)), Quit(|t.windows|), x);
      PushCounts(Log(Log(t, WillQuitDone(veto)), Quit(|t.windows|)), QuitEvent, x);
    case QuitEvent => LogCounts(t.(isQuiting := true), QuitDelivered, x);
    case WillClose(w) => LogCounts(t.(isQuiting := false), CloseCancelled(w), x);
    case _ =>
  }

  lemma CountsOfOpen(s: State, w: Window, x: Window)
    requires Enabled(s, Open(w)) && Counts(s, x)
    ensures Counts(Apply(s, Open(w)), x)
  {
    var t := s.(windows := s.windows + [w], everOpened := s.everOpened + {w});
    CountAppend(s.windows, w, x);
    assert Counts(t, x) || x == w;
    CountAppend(s.log, Opened(w), Removed(x));
    CountAppend(s.log, Opened(w), Reported(x));
  }

  lemma CountsOfGone(s: State, w: Window, x: Window)
    requires Enabled(s, Gone(w)) && Counts(s, x) && w !in s.closed
    ensures Counts(Apply(s, Gone(w)), x)
  {
    CountAppend(s.log, Reported(w), Removed(x));
    CountAppend(s.log, Reported(w), Reported(x));
    CountAppend(s.stack, ClosedEvent(w), ClosedEvent(x));
  }

  lemma PopCounts(s: State, x: Window)
    requires s.stack != [] && !Top(s).ClosedEvent? && Counts(s, x)
    ensures Counts(Pop(s), x)
  {}

  lemma CountsOfContinue(s: State, x: Window)
    requires Enabled(s, Continue) && Counts(s, x)
    ensures Counts(Apply(s, Continue), x)
  {
    var t := Pop(s);
    PopCounts(s, x);
    if Top(s).QuitTail? {
      PushCounts(t, CloseAll(s.windows), x);
    } else if Top(s).rest != [] {
      var next := CloseAll(Top(s).rest[1..]);
      PushCounts(t, next, x);
      PushCounts(Push(t, next), WillClose(Top(s).rest[0]), x);
    }
  }

  lemma CountsOfOther(s: State, a: Action, x: Window)
    requires Enabled(s, a) && !a.Return? && Counts(s, x)
    ensures Counts(Apply(s, a), x)
  {
    match a
    case CallQuit => PushCounts(s, BeforeQuit, x);
    case Open(w) => CountsOfOpen(s, w, x);
    case RequestClose(w) => PushCounts(s, WillClose(w), x);
    case UnloadCancelled(w) => LogCounts(s.(isQuiting := false), CloseCancelled(w), x);
    case Gone(w) =>
      if w !in s.closed {
        CountsOfGone(s, w, x);
      }
    case Continue => CountsOfContinue(s, x);
  }

  lemma InvStep(s: State, a: Action)
    requires Inv(s) && Enabled(s, a)
    ensures Inv(Apply(s, a))
  {
    var s' := Apply(s, a);
    if a.Return? && Top(s).ClosedEvent? {
      HistoryOfReturn(s, a.veto);
      forall x ensures Counts(s', x) { CountsOfRemove(s, x); }
    } else if a.Return? {
      HistoryOfReturn(s, a.veto);
      forall x ensures Counts(s', x) { CountsOfReturn(s, a.veto, x); }
    } else {
      HistoryOfOther(s, a);
      forall x ensures Counts(s', x) { CountsOfOther(s, a, x); }
    }
  }

  lemma {:induction false} InvExec(s: State, run: seq<Action>)
    requires Inv(s) && Exec(s, run).Some?
    ensures Inv(Exec(s, run).value)
    decreases run
  {
    if run == [] {
    } else {
      InvStep(s, run[0]);
      InvExec(Apply(s, run[0]), run[1..]);
    }
  }

  // ---- All runs

  /** The event at `b` is an unvetoed before-quit, and no close is cancelled between it and `i`. */
  ghost predicate QuitAgreedAt(log: seq<Event>, b: nat, i: nat) {
    b < i <= |log| && log[b] == BeforeQuitDone(false) && forall j :: b < j < i ==> !log[j].CloseCancelled?
  }

  lemma {:induction false} ArmedMeans(log: seq<Event>, i: nat)
    requires i <= |log|
    ensures Armed(log[..i]) <==> exists b :: QuitAgreedAt(log, b, i)
    decreases i
  {
    if i == 0 {
    } else {
      assert log[..i][..i - 1] == log[..i - 1];
      ArmedMeans(log, i - 1);
      if log[i - 1] == BeforeQuitDone(false) {
        assert QuitAgreedAt(log, i - 1, i);
      } else if Armed(log[..i]) {
        var b :| QuitAgreedAt(log, b, i - 1);
        assert QuitAgreedAt(log, b, i);
      }
      forall b: nat | QuitAgreedAt(log, b, i) && b < i - 1 ensures QuitAgreedAt(log, b, i - 1) {}
    }
  }

  predicate StartsQuit(e: Event) {
    e == BeforeQuitDone(false) || e == QuitDelivered
  }

  predicate StopsQuit(e: Event) {
    e == BeforeQuitDone(true) || e == WillQuitDone(true) || e.CloseCancelled?
  }

  /** The event at `b` starts a quit, and nothing between it and `i` stops it. */
  ghost predicate QuitGoingOn(log: seq<Event>, b: nat, i: nat) {
    b < i <= |log| && StartsQuit(log[b]) && forall j :: b < j < i ==> !StopsQuit(log[j])
  }

  lemma {:induction false} QuitFlagMeans(log: seq<Event>, i: nat)
    requires i <= |log|
    ensures QuitFlag(log[..i]) <==> exists b :: QuitGoingOn(log, b, i)
    decreases i
  {
    if i == 0 {
    } else {
      assert log[..i][..i - 1] == log[..i - 1];
      QuitFlagMeans(log, i - 1);
      if StartsQuit(log[i - 1]) {
        assert QuitGoingOn(log, i - 1, i);
      } else if QuitFlag(log[..i]) {
        var b :| QuitGoingOn(log, b, i - 1);
        assert QuitGoingOn(log, b, i);
      }
      forall b: nat | QuitGoingOn(log, b, i) && b < i - 1 ensures QuitGoingOn(log, b, i - 1) {}
    }
  }

  /** The browser's flag and the window list are what the events so far say. */
  lemma StateIsHistory(run: seq<Action>)
    requires Exec(INIT, run).Some?
    ensures var s := Exec(INIT, run).value;
      && (s.isQuiting <==> exists b :: QuitGoingOn(s.log, b, |s.log|))
      && s.windows == Listed(s.log)
  {
    InvExec(INIT, run);
    var s := Exec(INIT, run).value;
    QuitFlagMeans(s.log, |s.log|);
    assert s.log[..|s.log|] == s.log;
  }

  /** A quit event comes only with no window open, right after an unvetoed will-quit, and after an unvetoed
      before-quit since which no close was cancelled. */
  lemma QuitOnlyWhenClean(run: seq<Action>, i: nat)
    requires Exec(INIT, run).Some? && i < |Exec(INIT, run).value.log| && Exec(INIT, run).value.log[i].Quit?
    ensures var log := Exec(INIT, run).value.log;
      && log[i] == Quit(0) && Listed(log[..i]) == []
      && i > 0 && log[i - 1] == WillQuitDone(false)
      && exists b :: QuitAgreedAt(log, b, i)
  {
    InvExec(INIT, run);
    var log := Exec(INIT, run).value.log;
    assert Fits(log[..i], log[i]);
    ArmedMeans(log, i);
  }

  /** What is due comes next, and nothing of the kind comes that is not due. */
  lemma DueComes(log: seq<Event>, i: nat)
    requires LogOk(log) && Due(log).None? && i < |log|
    ensures Due(log[..i + 1]).Some? ==> i + 1 < |log| && Due(log[..i + 1]) == Some(log[i + 1])
    ensures log[i].Emptied? || log[i].AllClosed? || log[i].AutoWillQuit? ==> Due(log[..i]) == Some(log[i])
  {
    assert Fits(log[..i], log[i]);
    if i + 1 < |log| {
      assert Fits(log[..i + 1], log[i + 1]);
    } else {
      assert log[..i + 1] == log;
    }
  }

  lemma DueMeans(log: seq<Event>, i: nat)
    requires i <= |log|
    ensures Due(log[..i]) == Some(Emptied) <==> i > 0 && log[i - 1].Removed? && Listed(log[..i]) == []
    ensures Due(log[..i]) == Some(AutoWillQuit) <==> i > 0 && log[i - 1].Emptied? && QuitFlag(log[..i - 1])
    ensures Due(log[..i]) == Some(AllClosed) <==> i > 0 && log[i - 1].Emptied? && !QuitFlag(log[..i - 1])
  {
    if i > 0 {
      assert log[..i][..i - 1] == log[..i - 1];
    }
  }

  /** The list empties exactly when the last window is removed, and an emptying is answered exactly once: by the
      automatic will-quit if a quit is going on at that moment, by the all-closed event if not. */
  lemma EmptyingAnsweredOnce(run: seq<Action>, i: nat)
    requires Exec(INIT, run).Some? && i < |Exec(INIT, run).value.log|
    ensures var log := Exec(INIT, run).value.log;
      && (log[i].Removed? && Listed(log[..i + 1]) == [] ==> i + 1 < |log| && log[i + 1].Emptied?)
      && (log[i].Emptied? ==> i > 0 && log[i - 1].Removed? && Listed(log[..i]) == [])
      && (log[i].Emptied? ==>
            i + 1 < |log| && log[i + 1] == if exists b :: QuitGoingOn(log, b, i) then AutoWillQuit else AllClosed)
      && (log[i].AllClosed? || log[i].AutoWillQuit? ==> i > 0 && log[i - 1].Emptied?)
  {
    InvExec(INIT, run);
    var log := Exec(INIT, run).value.log;
    DueComes(log, i);
    DueMeans(log, i);
    DueMeans(log, i + 1);
    QuitFlagMeans(log, i);
  }

  /** A window is reported closed at most once and removed at most once, and removed only if reported; outside
      handlers, one that was opened is still listed, or has been reported and removed exactly once. */
  lemma ClosedExactlyOnce(run: seq<Action>, w: Window)
    requires Exec(INIT, run).Some?
    ensures var s := Exec(INIT, run).value;
      && Count(s.log, Removed(w)) <= Count(s.log, Reported(w)) <= 1
      && (s.stack == [] && w in s.everOpened ==>
            if w in s.windows then Count(s.log, Reported(w)) == 0
            else Count(s.log, Reported(w)) == Count(s.log, Removed(w)) == 1)
  {
    InvExec(INIT, run);
    var s := Exec(INIT, run).value;
    assert Counts(s, w);
    CountIn(s.windows, w);
  }

  lemma {:induction false} ExecTwice(s: State, a: seq<Action>, b: seq<Action>)
    requires Exec(s, a).Some?
    ensures Exec(s, a + b) == Exec(Exec(s, a).value, b)
    decreases a
  {
    if a == [] {
      assert a + b == b;
    } else {
      ExecTwice(Apply(s, a[0]), a[1..], b);
      assert (a + b)[1..] == a[1..] + b;
    }
  }

  lemma ExecOne(s: State, a: Action)
    requires Enabled(s, a)
    ensures Exec(s, [a]) == Some(Apply(s, a))
  {
    assert Exec(Apply(s, a), []) == Some(Apply(s, a));
    assert [a][1..] == [];
  }

  // ---- When a veto stops a quit

  /** Since `log`, no before-quit went unvetoed. */
  ghost predicate Unasked(log: seq<Event>, log': seq<Event>) {
    log <= log' && forall i :: |log| <= i < |log'| ==> log'[i] != BeforeQuitDone(false)
  }

  ghost predicate QuitSince(log: seq<Event>, log': seq<Event>) {
    exists i :: |log| <= i < |log'| && log'[i].Quit?
  }

  /** The run emits a quit event although no further before-quit is let through. */
  ghost predicate QuitsUnasked(s: State, run: seq<Action>) {
    Exec(s, run).Some? && Unasked(s.log, Exec(s, run).value.log) && QuitSince(s.log, Exec(s, run).value.log)
  }

  predicate LetsQuitThrough(s: State, a: Action) {
    a == Return(false) && s.stack != [] && Top(s).BeforeQuit?
  }

  lemma RemovalUnasked(s: State, w: Window)
    ensures Unasked(s.log, RemoveWindow(s, w).log)
  {}

  lemma ReturnUnasked(s: State, veto: bool)
    requires HandlerOnTop(s) && (Top(s).BeforeQuit? ==> veto)
    ensures Unasked(s.log, ReturnFrom(s, veto).log)
  {
    if Top(s).ClosedEvent? {
      RemovalUnasked(Pop(s), Top(s).w);
    }
  }

  lemma StepUnasked(s: State, a: Action)
    requires Enabled(s, a) && !LetsQuitThrough(s, a)
    ensures Unasked(s.log, Apply(s, a).log)
  {
    if a.Return? {
      ReturnUnasked(s, a.veto);
    }
  }

  lemma StepAsked(s: State, a: Action)
    requires Enabled(s, a) && LetsQuitThrough(s, a)
    ensures |Apply(s, a).log| == |s.log| + 1 && s.log <= Apply(s, a).log
    ensures Apply(s, a).log[|s.log|] == BeforeQuitDone(false)
  {}

  lemma {:induction false} LogGrows(s: State, run: seq<Action>)
    requires Exec(s, run).Some?
    ensures s.log <= Exec(s, run).value.log
    decreases run
  {
    if run == [] {
    } else {
      if LetsQuitThrough(s, run[0]) {
        StepAsked(s, run[0]);
      } else {
        StepUnasked(s, run[0]);
      }
      LogGrows(Apply(s, run[0]), run[1..]);
    }
  }

  lemma StepThenQuit(s: State, a: Action, rest: seq<Action>)
    requires Enabled(s, a) && !LetsQuitThrough(s, a) && QuitsUnasked(Apply(s, a), rest)
    ensures QuitsUnasked(s, [a] + rest)
  {
    StepUnasked(s, a);
    assert ([a] + rest)[1..] == rest;
  }

  /** The handlers of will-quit let it happen. */
  lemma WillQuitQuits(s: State)
    requires s.stack != [] && Top(s).WillQuit?
    ensures QuitsUnasked(s, [Return(false)])
  {
    ExecOne(s, Return(false));
    var log' := Apply(s, Return(false)).log;
    assert log' == s.log + [WillQuitDone(false)] + [Quit(|s.windows|)];
    assert log'[|s.log| + 1].Quit?;
  }

  lemma {:induction false} FreshWindow(taken: set<Window>) returns (w: Window)
    ensures w !in taken
    ensures forall x :: x in taken ==> x < w
    decreases taken
  {
    w := 0;
    if taken != {} {
      var x :| x in taken;
      var w' := FreshWindow(taken - {x});
      w := if x < w' then w' else x + 1;
      forall y | y in taken ensures y < w {
        assert y == x || y in taken - {x};
      }
    }
  }

  lemma OpenAndGone(s: State, w: Window)
    requires UserCode(s) && !InQuit(s.stack) && s.windows == [] && w !in s.everOpened && w !in s.closed
    ensures Enabled(s, Open(w)) && Enabled(Apply(s, Open(w)), Gone(w))
    ensures var s' := Apply(Apply(s, Open(w)), Gone(w));
      HandlerOnTop(s') && Top(s') == ClosedEvent(w) && s'.windows == [w] && s'.isQuiting == s.isQuiting
  {}

  lemma LastWindowQuits(s: State, w: Window)
    requires HandlerOnTop(s) && Top(s) == ClosedEvent(w) && s.windows == [w] && s.isQuiting
    ensures QuitsUnasked(s, [Return(true)] + [Return(false)])
  {
    assert Without([w], w) == [] by {
      assert [w][..0] == [];
    }
    var s' := Apply(s, Return(true));
    assert Top(s') == WillQuit;
    WillQuitQuits(s');
    StepThenQuit(s, Return(true), [Return(false)]);
  }

  /** While a quit goes on, a window that is opened, closes and so empties the list leads to a will-quit. */
  lemma OpenAndQuit(s: State) returns (run: seq<Action>)
    requires Inv(s) && UserCode(s) && !InQuit(s.stack) && s.isQuiting && s.windows == []
    ensures QuitsUnasked(s, run)
  {
    var w := FreshWindow(s.everOpened);
    assert Counts(s, w);
    OpenAndGone(s, w);
    var s1 := Apply(s, Open(w));
    var s2 := Apply(s1, Gone(w));
    LastWindowQuits(s2, w);
    var rest := [Return(true)] + [Return(false)];
    StepThenQuit(s1, Gone(w), rest);
    StepThenQuit(s, Open(w), [Gone(w)] + rest);
    run := [Open(w)] + ([Gone(w)] + rest);
  }

  /** A bound on the steps of a call in progress, with at most `n` windows to close. */
  function FrameWeight(f: Frame, n: nat): nat {
    match f
    case ClosedEvent(_) => 2
    case BeforeQuit => 2 * n + 3
    case QuitTail => 2 * n + 2
    case CloseAll(rest) => 1 + 2 * |rest|
    case _ => 1
  }

  function Weight(stack: seq<Frame>, n: nat): nat {
    if stack == [] then 0 else Weight(stack[..|stack| - 1], n) + FrameWeight(stack[|stack| - 1], n)
  }

  predicate QuitFrame(f: Frame) {
    f.WillQuit? || f.QuitEvent?
  }

  lemma PopIsLighter(stack: seq<Frame>, n: nat)
    requires stack != []
    ensures Weight(stack, n) == Weight(stack[..|stack| - 1], n) + FrameWeight(stack[|stack| - 1], n)
  {}

  lemma PopInQuit(stack: seq<Frame>)
    requires stack != []
    ensures InQuit(stack) <==> InQuit(stack[..|stack| - 1]) || QuitFrame(stack[|stack| - 1])
  {
    assert stack == stack[..|stack| - 1] + [stack[|stack| - 1]];
  }

  lemma PushIsHeavier(stack: seq<Frame>, f: Frame, n: nat)
    ensures Weight(stack + [f], n) == Weight(stack, n) + FrameWeight(f, n)
  {
    assert (stack + [f])[..|stack|] == stack;
  }

  lemma PushInQuit(stack: seq<Frame>, f: Frame)
    ensures InQuit(stack + [f]) <==> InQuit(stack) || QuitFrame(f)
  {}

  ghost predicate QuitUnderWay(s: State) {
    s.windows == [] && (InQuit(s.stack) || s.isQuiting)
  }

  lemma UnwindRemoval(s: State, w: Window)
    requires s.windows == [] && InQuit(s.stack)
    ensures QuitUnderWay(RemoveWindow(s, w)) && Weight(RemoveWindow(s, w).stack, 0) == Weight(s.stack, 0) + 1
  {
    var f := if s.isQuiting then WillQuit else AllClosedEvent;
    PushIsHeavier(s.stack, f, 0);
    PushInQuit(s.stack, f);
  }

  lemma UnwindReturn(s: State)
    requires QuitUnderWay(s) && HandlerOnTop(s) && !Top(s).WillQuit? && InQuit(s.stack) && StackOrdered(s.stack)
    ensures QuitUnderWay(Apply(s, Return(true))) && Weight(Apply(s, Return(true)).stack, 0) < Weight(s.stack, 0)
  {
    PopIsLighter(s.stack, 0);
    PopInQuit(s.stack);
    PopFacts(s.stack);
    if Top(s).ClosedEvent? {
      UnwindRemoval(Pop(s), Top(s).w);
    }
  }

  lemma UnwindReplace(s: State, f: Frame)
    requires QuitUnderWay(s) && s.stack != [] && !QuitFrame(Top(s)) && FrameWeight(f, 0) < FrameWeight(Top(s), 0)
    ensures QuitUnderWay(Push(Pop(s), f)) && Weight(Push(Pop(s), f).stack, 0) < Weight(s.stack, 0)
  {
    PopIsLighter(s.stack, 0);
    PopInQuit(s.stack);
    PushIsHeavier(Pop(s).stack, f, 0);
    PushInQuit(Pop(s).stack, f);
  }

  lemma UnwindContinue(s: State)
    requires QuitUnderWay(s) && Enabled(s, Continue)
    ensures QuitUnderWay(Apply(s, Continue)) && Weight(Apply(s, Continue).stack, 0) < Weight(s.stack, 0)
  {
    if Top(s).QuitTail? {
      UnwindReplace(s, CloseAll(s.windows));
    } else if Top(s).rest != [] {
      UnwindReplace(s, CloseAll(Top(s).rest[1..]));
    } else {
      PopIsLighter(s.stack, 0);
      PopInQuit(s.stack);
    }
  }

  /** Unwinding, with every before-quit vetoed, brings the quit that is under way nearer. */
  lemma Unwind(s: State) returns (a: Action)
    requires Inv(s) && QuitUnderWay(s) && s.stack != [] && !Top(s).WillQuit?
    requires InQuit(s.stack) || !UserCode(s)
    ensures Enabled(s, a) && !LetsQuitThrough(s, a)
    ensures QuitUnderWay(Apply(s, a)) && Weight(Apply(s, a).stack, 0) < Weight(s.stack, 0)
  {
    if HandlerOnTop(s) {
      a := Return(true);
      UnwindReturn(s);
    } else {
      a := Continue;
      UnwindContinue(s);
    }
  }

  lemma {:induction false} RunIntoQuit(s: State) returns (run: seq<Action>)
    requires Inv(s) && QuitUnderWay(s)
    ensures QuitsUnasked(s, run)
    decreases Weight(s.stack, 0)
  {
    if s.stack != [] && Top(s).WillQuit? {
      run := [Return(false)];
      WillQuitQuits(s);
    } else if InQuit(s.stack) || !UserCode(s) {
      var a := Unwind(s);
      InvStep(s, a);
      var rest := RunIntoQuit(Apply(s, a));
      run := [a] + rest;
      StepThenQuit(s, a, rest);
    } else {
      run := OpenAndQuit(s);
    }
  }

  predicate Stopped(s: State) {
    !s.isQuiting && !InQuit(s.stack)
  }

  lemma StaysStoppedOnce(s: State, a: Action)
    requires Stopped(s) && Enabled(s, a) && !LetsQuitThrough(s, a)
    ensures Stopped(Apply(s, a)) && !QuitSince(s.log, Apply(s, a).log)
  {
    if s.stack != [] {
      assert s.stack == Pop(s).stack + [Top(s)];
    }
  }

  lemma LettingThroughShows(s: State, a: Action, log': seq<Event>)
    requires Enabled(s, a) && LetsQuitThrough(s, a) && Apply(s, a).log <= log'
    ensures !Unasked(s.log, log')
  {
    StepAsked(s, a);
    assert log'[|s.log|] == BeforeQuitDone(false);
  }

  lemma {:induction false} StaysStopped(s: State, run: seq<Action>)
    requires Stopped(s) && Exec(s, run).Some? && Unasked(s.log, Exec(s, run).value.log)
    ensures !QuitSince(s.log, Exec(s, run).value.log)
    decreases run
  {
    if run == [] {
    } else {
      var s' := Apply(s, run[0]);
      LogGrows(s', run[1..]);
      if LetsQuitThrough(s, run[0]) {
        LettingThroughShows(s, run[0], Exec(s, run).value.log);
      } else {
        StepUnasked(s, run[0]);
        StaysStoppedOnce(s, run[0]);
        StaysStopped(s', run[1..]);
      }
    }
  }

  /** While no quit is going on by the flag, some continuation quits without letting another before-quit
      through exactly when a will-quit or quit event is being delivered. */
  lemma QuitsUnaskedExactly(s: State)
    requires Inv(s) && !s.isQuiting
    ensures (exists run :: QuitsUnasked(s, run)) <==> InQuit(s.stack)
  {
    if InQuit(s.stack) {
      var run := RunIntoQuit(s);
    } else {
      forall run | Exec(s, run).Some? && Unasked(s.log, Exec(s, run).value.log) ensures !QuitsUnasked(s, run) {
        StaysStopped(s, run);
      }
    }
  }

  lemma VetoKeepsFrames(s: State)
    requires s.stack != [] && Top(s).BeforeQuit?
    ensures !Apply(s, Return(true)).isQuiting
    ensures InQuit(Apply(s, Return(true)).stack) <==> InQuit(s.stack)
  {
    PopInQuit(s.stack);
  }

  /** A vetoed before-quit stops the quit, so that only another before-quit let through can lead to one, exactly
      when it was not raised while a will-quit or quit event is being delivered. */
  lemma VetoStopsQuit(run: seq<Action>, s: State)
    requires Exec(INIT, run) == Some(s) && s.stack != [] && Top(s).BeforeQuit?
    ensures !(exists rest :: QuitsUnasked(Apply(s, Return(true)), rest)) <==> !InQuit(s.stack)
  {
    Extend(run, s, Return(true));
    InvExec(INIT, run + [Return(true)]);
    VetoKeepsFrames(s);
    QuitsUnaskedExactly(Apply(s, Return(true)));
  }

  lemma Extend(run: seq<Action>, s: State, a: Action)
    requires Exec(INIT, run) == Some(s) && Enabled(s, a)
    ensures Exec(INIT, run + [a]) == Some(Apply(s, a))
  {
    ExecOne(s, a);
    ExecTwice(INIT, run, [a]);
  }

  lemma QuitToWillQuit(s: State)
    requires UserCode(s) && s.windows == []
    ensures var asked := Apply(s, CallQuit);
      Enabled(asked, Return(false)) && Apply(asked, Return(false)).stack == s.stack + [QuitTail] + [WillQuit]
  {}

  /** Quitting with no window open puts the handlers of will-quit in control. */
  lemma ReachWillQuit(start: seq<Action>, s0: State) returns (run: seq<Action>, s: State)
    requires Exec(INIT, start) == Some(s0) && UserCode(s0) && s0.windows == []
    ensures Exec(INIT, run) == Some(s) && s.stack != [] && Top(s).WillQuit? && InQuit(s.stack)
  {
    QuitToWillQuit(s0);
    var asked := Apply(s0, CallQuit);
    Extend(start, s0, CallQuit);
    Extend(start + [CallQuit], asked, Return(false));
    run, s := start + [CallQuit] + [Return(false)], Apply(asked, Return(false));
    PushInQuit(s0.stack + [QuitTail], WillQuit);
  }

  /** This can happen whenever a handler or the event loop is in control and no window is open: a quit, and
      within its will-quit a before-quit that is vetoed but does not stop it. */
  lemma NestedVetoStillQuits(start: seq<Action>, s0: State) returns (run: seq<Action>, s: State)
    requires Exec(INIT, start) == Some(s0) && UserCode(s0) && s0.windows == []
    ensures Exec(INIT, run) == Some(s) && s.stack != [] && Top(s).BeforeQuit?
    ensures exists rest :: QuitsUnasked(Apply(s, Return(true)), rest)
  {
    var toWillQuit, willQuit := ReachWillQuit(start, s0);
    Extend(toWillQuit, willQuit, CallQuit);
    run, s := toWillQuit + [CallQuit], Push(willQuit, BeforeQuit);
    PushInQuit(willQuit.stack, BeforeQuit);
    VetoStopsQuit(run, s);
  }
}
