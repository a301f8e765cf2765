/** Asking windows to close: who is asked and in what order, and that a quit nobody objects to reaches its end. */
module LifecycleClosing {
  import opened Wrappers
  import opened Lifecycle

  // ---- Each window gets its turn

  /** A window's turn in the closing loop: was it still listed, and was it asked to close? */
  datatype Turn = Turn(w: Window, listed: bool, asked: bool)

  /** The loop at depth `d` of the calls in progress goes on to its next window. */
  predicate TurnNow(s: State, a: Action, d: nat) {
    a.Continue? && |s.stack| == d + 1 && Top(s).CloseAll? && Top(s).rest != []
  }

  function TurnOf(s: State, a: Action, d: nat): Turn
    requires Enabled(s, a) && TurnNow(s, a, d)
  {
    var (w, s') := (Top(s).rest[0], Apply(s, a));
    Turn(w, w in s.windows, |s'.stack| == d + 2 && s'.stack[d + 1] == WillClose(w))
  }

  /** The turns that the loop at depth `d` gives out during a run. */
  function Turns(s: State, run: seq<Action>, d: nat): seq<Turn>
    requires Exec(s, run).Some?
    decreases run
  {
    if run == [] then []
    else (if TurnNow(s, run[0], d) then [TurnOf(s, run[0], d)] else []) + Turns(Apply(s, run[0]), run[1..], d)
  }

  /** The run ends when the call at depth `d` returns. */
  predicate UntilReturn(s: State, run: seq<Action>, d: nat)
    requires Exec(s, run).Some?
    decreases run
  {
    if run == [] then |s.stack| == d
    else |s.stack| > d && UntilReturn(Apply(s, run[0]), run[1..], d)
  }

  /** The calls below the innermost one wait: no step changes them. */
  lemma BelowWaits(s: State, a: Action)
    requires Enabled(s, a) && s.stack != []
    ensures s.stack[..|s.stack| - 1] <= Apply(s, a).stack
  {}

  lemma FrameWaits(s: State, a: Action, d: nat)
    requires Enabled(s, a) && d + 1 < |s.stack|
    ensures d < |Apply(s, a).stack| && Apply(s, a).stack[d] == s.stack[d]
  {
    BelowWaits(s, a);
    assert s.stack[..|s.stack| - 1][d] == s.stack[d];
  }

  lemma LoopStep(s: State, d: nat)
    requires |s.stack| == d + 1 && Top(s).CloseAll? && Top(s).rest != []
    ensures Enabled(s, Continue) && |Apply(s, Continue).stack| > d
    ensures Apply(s, Continue).stack[d] == CloseAll(Top(s).rest[1..])
    ensures TurnNow(s, Continue, d)
    ensures TurnOf(s, Continue, d)
         == Turn(Top(s).rest[0], Top(s).rest[0] in s.windows, Top(s).rest[0] in s.windows)
  {}

  /** Whatever handlers do in between, the loop gives each of its windows one turn, in order, and asks exactly
      those that are still listed when their turn comes. */
  lemma {:induction false} LoopAsksEachOnce(s: State, run: seq<Action>, d: nat)
    requires Exec(s, run).Some? && UntilReturn(s, run, d) && d < |s.stack| && s.stack[d].CloseAll?
    ensures var (turns, ws) := (Turns(s, run, d), s.stack[d].rest);
      && |turns| == |ws|
      && forall i :: 0 <= i < |ws| ==> turns[i].w == ws[i] && turns[i].asked == turns[i].listed
    decreases run
  {
    var a, s' := run[0], Apply(s, run[0]);
    if |s.stack| > d + 1 {
      FrameWaits(s, a, d);
      LoopAsksEachOnce(s', run[1..], d);
    } else if Top(s).rest == [] {
      assert |s'.stack| == d;
    } else {
      LoopStep(s, d);
      LoopAsksEachOnce(s', run[1..], d);
    }
  }

  /** A quit that is let through while windows are open gives each of them its turn, once and in order, unless it
      is gone by then. */
  lemma QuitAsksEachOnce(s: State, run: seq<Action>)
    requires s.stack != [] && Top(s).BeforeQuit? && s.windows != []
    requires var s' := Apply(s, Return(false)); Exec(s', run).Some? && UntilReturn(s', run, |s.stack| - 1)
    ensures var turns := Turns(Apply(s, Return(false)), run, |s.stack| - 1);
      && |turns| == |s.windows|
      && forall i :: 0 <= i < |s.windows| ==> turns[i].w == s.windows[i] && turns[i].asked == turns[i].listed
  {
    var s', d := Apply(s, Return(false)), |s.stack| - 1;
    LetThrough(s);
    assert run != [] && run[0] == Continue;
    LoopAsksEachOnce(Apply(s', Continue), run[1..], d);
  }

  lemma LetThrough(s: State)
    requires s.stack != [] && Top(s).BeforeQuit? && s.windows != []
    ensures var s' := Apply(s, Return(false));
      && s'.isQuiting && s'.windows == s.windows && s'.stack == Pop(s).stack + [QuitTail]
      && Apply(s', Continue).stack == Pop(s).stack + [CloseAll(s.windows)]
  {
    assert (Pop(s).stack + [QuitTail])[..|s.stack| - 1] == Pop(s).stack;
  }

  // ---- A quit nobody objects to

  /** The next step when no handler objects and a window that is asked to close goes. */
  function Cooperate(s: State): Action
    requires s.stack != []
  {
    match Top(s)
    case QuitTail => Continue
    case CloseAll(_) => Continue
    case WillClose(w) => if w in s.windows && w !in s.closed then Gone(w) else Return(false)
    case _ => Return(false)
  }

  predicate CooperativeRun(s: State, run: seq<Action>)
    decreases run
  {
    run == []
    || (s.stack != [] && run[0] == Cooperate(s) && Enabled(s, run[0]) && CooperativeRun(Apply(s, run[0]), run[1..]))
  }

  ghost predicate QuitsTogether(s: State, run: seq<Action>) {
    CooperativeRun(s, run) && Exec(s, run).Some? && QuitSince(s.log, Exec(s, run).value.log)
  }

  predicate HasTurn(f: Frame, w: Window) {
    f.QuitTail? || f == WillClose(w) || (f.CloseAll? && w in f.rest)
  }

  /** Some call in progress will ask the window, or is asking it. */
  ghost predicate DueToClose(stack: seq<Frame>, w: Window) {
    exists i :: 0 <= i < |stack| && HasTurn(stack[i], w)
  }

  /** A quit is going on and every open window is due to close or closed already. */
  ghost predicate Closing(s: State) {
    && s.isQuiting && s.windows != []
    && forall w :: w in s.windows && w !in s.closed ==> DueToClose(s.stack, w)
  }

  ghost function Unclosed(s: State): set<Window> {
    set w | w in s.windows && w !in s.closed
  }

  lemma DueAfterPush(stack: seq<Frame>, f: Frame, w: Window)
    ensures DueToClose(stack + [f], w) <==> DueToClose(stack, w) || HasTurn(f, w)
  {
    if i :| 0 <= i < |stack + [f]| && HasTurn((stack + [f])[i], w) {
      assert i < |stack| ==> HasTurn(stack[i], w);
    }
    if i :| 0 <= i < |stack| && HasTurn(stack[i], w) {
      assert HasTurn((stack + [f])[i], w);
    }
    assert (stack + [f])[|stack|] == f;
  }

  lemma DueAfterPop(stack: seq<Frame>, w: Window)
    requires stack != []
    ensures DueToClose(stack, w)
       <==> DueToClose(stack[..|stack| - 1], w) || HasTurn(stack[|stack| - 1], w)
  {
    assert stack == stack[..|stack| - 1] + [stack[|stack| - 1]];
    DueAfterPush(stack[..|stack| - 1], stack[|stack| - 1], w);
  }

  /** While windows are open and closing, there is a call in progress, and no quit is being delivered. */
  lemma ClosingHasCalls(s: State)
    requires Inv(s) && Closing(s)
    ensures s.stack != [] && !QuitFrame(Top(s))
  {
    var w := s.windows[0];
    assert Counts(s, w);
    CountIn(s.windows, w);
    CountIn(s.stack, ClosedEvent(w));
    assert ClosedEvent(w) in s.stack || DueToClose(s.stack, w);
    PopInQuit(s.stack);
  }

  /** Progress: the next state is at will-quit, or still closing with less to do. */
  ghost predicate Nearer(s: State, s': State, n: nat) {
    && |s'.windows| <= n
    && ((s'.stack != [] && Top(s').WillQuit?)
        || (Closing(s') && (Unclosed(s') < Unclosed(s)
                            || (Unclosed(s') <= Unclosed(s) && Weight(s'.stack, n) < Weight(s.stack, n)))))
  }

  /** The innermost call is replaced by a lighter one, or by none, with no window losing its turn. */
  lemma NearerByFrame(s: State, s': State, n: nat)
    requires Closing(s) && s.stack != [] && |s.windows| <= n
    requires s'.isQuiting && s'.windows == s.windows && s'.closed == s.closed
    requires s'.stack == Pop(s).stack
             || exists f :: s'.stack == Pop(s).stack + [f] && FrameWeight(f, n) < FrameWeight(Top(s), n)
    requires forall w :: w in s.windows && w !in s.closed && HasTurn(Top(s), w) ==> DueToClose(s'.stack, w)
    ensures Nearer(s, s', n)
  {
    PopIsLighter(s.stack, n);
    forall w | w in s'.windows && w !in s'.closed ensures DueToClose(s'.stack, w) {
      DueAfterPop(s.stack, w);
      if f :| s'.stack == Pop(s).stack + [f] && FrameWeight(f, n) < FrameWeight(Top(s), n) {
        DueAfterPush(Pop(s).stack, f, w);
      }
    }
    if f :| s'.stack == Pop(s).stack + [f] && FrameWeight(f, n) < FrameWeight(Top(s), n) {
      PushIsHeavier(Pop(s).stack, f, n);
    }
  }

  lemma NearerByLoop(s: State, n: nat)
    requires Closing(s) && s.stack != [] && |s.windows| <= n && (Top(s).QuitTail? || Top(s).CloseAll?)
    ensures Enabled(s, Continue) && Nearer(s, Apply(s, Continue), n)
  {
    var s' := Apply(s, Continue);
    if Top(s).QuitTail? {
      forall w | w in s.windows ensures DueToClose(s'.stack, w) {
        DueAfterPush(Pop(s).stack, CloseAll(s.windows), w);
      }
      NearerByFrame(s, s', n);
    } else if Top(s).rest == [] {
      NearerByFrame(s, s', n);
    } else {
      NearerByTurn(s, n);
    }
  }

  /** A window keeps its turn, or has it now, when the loop goes on. */
  lemma DueAfterTurn(stack: seq<Frame>, w0: Window, rest: seq<Window>, w: Window)
    requires DueToClose(stack + [CloseAll([w0] + rest)], w)
    ensures w != w0 ==> DueToClose(stack + [CloseAll(rest)], w)
    ensures DueToClose(stack + [CloseAll(rest)] + [WillClose(w0)], w)
  {
    DueAfterPush(stack, CloseAll([w0] + rest), w);
    DueAfterPush(stack, CloseAll(rest), w);
    DueAfterPush(stack + [CloseAll(rest)], WillClose(w0), w);
  }

  lemma NearerByTurn(s: State, n: nat)
    requires Closing(s) && s.stack != [] && |s.windows| <= n && Top(s).CloseAll? && Top(s).rest != []
    ensures Nearer(s, Apply(s, Continue), n)
  {
    var s' := Apply(s, Continue);
    var w0, after, rest := Top(s).rest[0], Top(s).rest[1..], Pop(s).stack;
    assert Top(s).rest == [w0] + after && s.stack == rest + [Top(s)];
    PopIsLighter(s.stack, n);
    PushIsHeavier(rest, CloseAll(after), n);
    PushIsHeavier(rest + [CloseAll(after)], WillClose(w0), n);
    forall w | w in s.windows && w !in s.closed ensures DueToClose(s'.stack, w) {
      DueAfterTurn(rest, w0, after, w);
    }
  }

  lemma NearerByGone(s: State, w: Window, n: nat)
    requires Inv(s) && Closing(s) && |s.windows| <= n && s.stack != [] && Top(s) == WillClose(w)
    requires w in s.windows && w !in s.closed
    ensures Enabled(s, Gone(w)) && Nearer(s, Apply(s, Gone(w)), n)
  {
    assert Counts(s, w);
    CountIn(s.windows, w);
    var s' := Apply(s, Gone(w));
    forall x | x in s'.windows && x !in s'.closed ensures DueToClose(s'.stack, x) {
      DueAfterPush(s.stack, ClosedEvent(w), x);
    }
    assert w in Unclosed(s) && w !in Unclosed(s');
  }

  lemma {:induction false} WithoutIsFewer(windows: seq<Window>, w: Window)
    ensures |Without(windows, w)| <= |windows|
    ensures forall x :: x in Without(windows, w) ==> x in windows
    decreases windows
  {
    if windows == [] {
    } else {
      WithoutIsFewer(windows[..|windows| - 1], w);
    }
  }

  lemma NearerByRemoval(s: State, w: Window, n: nat)
    requires Closing(s) && s.stack != [] && |s.windows| <= n && Top(s) == ClosedEvent(w)
    ensures Nearer(s, Apply(s, Return(false)), n)
  {
    WithoutIsFewer(s.windows, w);
    PopIsLighter(s.stack, n);
    var s' := Apply(s, Return(false));
    if Without(s.windows, w) == [] {
      assert Top(s') == WillQuit;
    } else {
      forall x | x in s'.windows && x !in s'.closed ensures DueToClose(s'.stack, x) {
        DueAfterPop(s.stack, x);
      }
    }
  }

  lemma NearerByReturn(s: State, n: nat)
    requires Closing(s) && |s.windows| <= n && HandlerOnTop(s) && !QuitFrame(Top(s)) && !Top(s).ClosedEvent?
    requires Top(s).WillClose? ==> Top(s).w !in s.windows || Top(s).w in s.closed
    ensures Nearer(s, Apply(s, Return(false)), n)
  {
    if Top(s).BeforeQuit? {
      LetThrough(s);
      assert FrameWeight(QuitTail, n) < FrameWeight(Top(s), n);
    }
    NearerByFrame(s, Apply(s, Return(false)), n);
  }

  lemma CooperationHelps(s: State, n: nat)
    requires Inv(s) && Closing(s) && |s.windows| <= n
    ensures s.stack != [] && Enabled(s, Cooperate(s)) && Nearer(s, Apply(s, Cooperate(s)), n)
  {
    ClosingHasCalls(s);
    match Top(s)
    case QuitTail => NearerByLoop(s, n);
    case CloseAll(_) => NearerByLoop(s, n);
    case ClosedEvent(w) => NearerByRemoval(s, w, n);
    case WillClose(w) =>
      if w in s.windows && w !in s.closed {
        NearerByGone(s, w, n);
      } else {
        NearerByReturn(s, n);
      }
    case _ => NearerByReturn(s, n);
  }

  lemma QuitsTogetherAfter(s: State, rest: seq<Action>)
    requires s.stack != [] && Enabled(s, Cooperate(s)) && QuitsTogether(Apply(s, Cooperate(s)), rest)
    ensures QuitsTogether(s, [Cooperate(s)] + rest)
  {
    var a := Cooperate(s);
    ExecOne(s, a);
    LogGrows(s, [a]);
    assert ([a] + rest)[1..] == rest;
  }

  lemma {:induction false} CooperationQuits(s: State, n: nat) returns (run: seq<Action>)
    requires Inv(s) && |s.windows| <= n
    requires Closing(s) || (s.stack != [] && Top(s).WillQuit?)
    ensures QuitsTogether(s, run)
    decreases if Closing(s) then 1 else 0, Unclosed(s), Weight(s.stack, n)
  {
    if s.stack != [] && Top(s).WillQuit? {
      run := [Return(false)];
      WillQuitQuits(s);
      assert CooperativeRun(Apply(s, Return(false)), []) && run[1..] == [];
    } else {
      CooperationHelps(s, n);
      var a := Cooperate(s);
      InvStep(s, a);
      var rest := CooperationQuits(Apply(s, a), n);
      QuitsTogetherAfter(s, rest);
      run := [a] + rest;
    }
  }

  /** From every reachable before-quit, whatever calls are in progress around it: if it is let through, nobody
      objects any more and every window goes when asked, a quit event follows without another call to quit. */
  lemma QuitNobodyObjectsTo(start: seq<Action>, s: State) returns (run: seq<Action>)
    requires Exec(INIT, start) == Some(s) && s.stack != [] && Top(s).BeforeQuit?
    ensures QuitsTogether(Apply(s, Return(false)), run)
  {
    var s' := Apply(s, Return(false));
    InvExec(INIT, start);
    InvStep(s, Return(false));
    if s.windows != [] {
      LetThrough(s);
      forall w | w in s'.windows ensures DueToClose(s'.stack, w) {
        DueAfterPush(Pop(s).stack, QuitTail, w);
      }
    } else {
      assert Top(s') == WillQuit;
    }
    run := CooperationQuits(s', |s'.windows|);
  }

  // ---- Vetoes and requests

  /** A veto lowers the quit flag wherever it is given; consent raises it only for before-quit, and so does the end
      of Shutdown. */
  lemma FlagFollowsAnswers(s: State, veto: bool)
    requires HandlerOnTop(s)
    ensures Apply(s, Return(veto)).isQuiting ==
      match Top(s)
      case BeforeQuit => !veto
      case WillQuit => s.isQuiting && !veto
      case WillClose(_) => s.isQuiting && !veto
      case QuitEvent => true
      case _ => s.isQuiting
    ensures Top(s).WillClose? && veto ==> Apply(s, Return(veto)).log == s.log + [CloseCancelled(Top(s).w)]
  {}

  /** A page that keeps its window cancels the quit as well. */
  lemma UnloadCancelsQuit(s: State, w: Window)
    requires Enabled(s, UnloadCancelled(w))
    ensures !Apply(s, UnloadCancelled(w)).isQuiting && Apply(s, UnloadCancelled(w)).log == s.log + [CloseCancelled(w)]
  {}

  predicate Asking(f: Frame) {
    f.QuitTail? || f.CloseAll? || f.WillClose?
  }

  ghost predicate NobodyAsked(stack: seq<Frame>) {
    forall i :: 0 <= i < |stack| ==> !Asking(stack[i])
  }

  /** While every before-quit is vetoed, no window is asked to close but by a request for that window. */
  lemma {:induction false} VetoedQuitAsksNobody(s: State, run: seq<Action>)
    requires NobodyAsked(s.stack) && Exec(s, run).Some? && Unasked(s.log, Exec(s, run).value.log)
    requires forall a :: a in run ==> !a.RequestClose?
    ensures NobodyAsked(Exec(s, run).value.stack)
    decreases run
  {
    if run == [] {
    } else {
      var a, s' := run[0], Apply(s, run[0]);
      assert a in run && forall x :: x in run[1..] ==> x in run;
      LogGrows(s', run[1..]);
      if LetsQuitThrough(s, a) {
        LettingThroughShows(s, a, Exec(s, run).value.log);
      } else {
        StepUnasked(s, a);
        NobodyAskedStep(s, a);
        VetoedQuitAsksNobody(s', run[1..]);
      }
    }
  }

  lemma NobodyAskedStep(s: State, a: Action)
    requires NobodyAsked(s.stack) && Enabled(s, a) && !LetsQuitThrough(s, a) && !a.RequestClose?
    ensures NobodyAsked(Apply(s, a).stack)
  {}

  /** A window that opens is listed last; when it has gone, its closed event is delivered, and after that it is off
      the list, in whatever order things happen. */
  lemma WindowOpensAndGoes(s: State, w: Window, veto: bool)
    ensures Enabled(s, Open(w)) ==> Apply(s, Open(w)).windows == s.windows + [w]
    ensures Enabled(s, RequestClose(w)) ==> Apply(s, RequestClose(w)).stack == s.stack + [WillClose(w)]
    ensures Enabled(s, Gone(w)) && w !in s.closed ==>
              var s' := Apply(s, Gone(w));
              && s'.log == s.log + [Reported(w)] && s'.stack == s.stack + [ClosedEvent(w)]
              && w !in Apply(s', Return(veto)).windows && Removed(w) in Apply(s', Return(veto)).log
  {
    if Enabled(s, Gone(w)) && w !in s.closed {
      var s' := Apply(s, Gone(w));
      assert s'.stack[|s.stack|] == ClosedEvent(w);
      CountWithout(s'.windows, w, w);
      CountIn(Without(s'.windows, w), w);
      var t := Apply(s', Return(veto));
      assert t.log[|s'.log|] == Removed(w);
    }
  }
}
