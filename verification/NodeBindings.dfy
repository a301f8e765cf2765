/** The handshake between the main thread, which runs libuv, and the embed thread, which polls for its events. */
module NodeBindings {
  import opened Wrappers

  /** Where the embed thread is in its loop. */
  datatype EmbedPc =
    | NotCreated
    | Waiting          // on the semaphore
    | CheckingToPoll   // reads embed_closed_ after the wait
    | EnteringPoll     // about to call PollEvents
    | Polling          // inside PollEvents
    | CheckingToWake   // reads embed_closed_ after the poll
    | Waking           // about to post UvRunOnce
    | Exited

  /** Where the main thread is: free to run its loop, or in the destructor. */
  datatype MainPc = Unprepared | Alive | InDestructor | ClosedSet | SemPosted | Joining | Destroyed

  /** One active call of UvRunOnce. */
  datatype Frame = BeforeUvPoll | AfterUvPoll | Posting

  datatype State = State(
    main: MainPc,
    frames: seq<Frame>,     // innermost call last
    embed: EmbedPc,
    sem: nat,
    closed: bool,
    loopSet: bool,          // message_loop_ is not null
    queue: nat,             // posted UvRunOnce tasks
    runs: nat,              // calls of RunMessageLoop so far
    registered: bool,       // libuv has handed the dummy handle to the backend
    pending: bool)          // an async wakeup not yet drained by uv_run

  datatype Action =
    | Prepare | RunMessageLoop | RunTask | UvPoll | UvReturn | UvPost | WatcherQueueChanged
    | StartDestructor | SetClosed | DestructorPost | DestructorWakeup | Join
    | SemWait | CheckToPoll | EnterPoll | LeavePoll(external: bool) | CheckToWake | PostTask

  const INIT := State(Unprepared, [], NotCreated, 0, false, false, 0, 0, false, false)

  /** The main thread can start something new: nothing is running, or callbacks inside uv_run are. */
  predicate MainFree(s: State) {
    s.main.Alive? && (s.frames == [] || !s.frames[|s.frames| - 1].Posting?)
  }

  predicate Top(s: State, f: Frame) {
    s.main.Alive? && s.frames != [] && s.frames[|s.frames| - 1] == f
  }

  predicate Enabled(s: State, a: Action) {
    match a
    case Prepare => s.main.Unprepared?
    case RunMessageLoop => MainFree(s)
    case RunTask => MainFree(s) && s.queue > 0
    case UvPoll => Top(s, BeforeUvPoll)
    case UvReturn => Top(s, AfterUvPoll)
    case UvPost => Top(s, Posting)
    case WatcherQueueChanged => s.main.Alive? && s.runs > 0 // the callback is installed by RunMessageLoop
    case StartDestructor => s.main.Alive?
    case SetClosed => s.main.InDestructor?
    case DestructorPost => s.main.ClosedSet?
    case DestructorWakeup => s.main.SemPosted?
    case Join => s.main.Joining? && s.embed.Exited?
    case SemWait => s.embed.Waiting? && s.sem > 0
    case CheckToPoll => s.embed.CheckingToPoll?
    case EnterPoll => s.embed.EnteringPoll?
    case LeavePoll(external) => s.embed.Polling? && (external || (s.registered && s.pending))
    case CheckToWake => s.embed.CheckingToWake?
    case PostTask => s.embed.Waking? && s.loopSet
  }

  function Apply(s: State, a: Action): State
    requires Enabled(s, a)
  {
    match a
    case Prepare => s.(main := Alive, embed := Waiting, sem := 0)
    case RunMessageLoop => s.(loopSet := true, runs := s.runs + 1, frames := s.frames + [BeforeUvPoll])
    case RunTask => s.(queue := s.queue - 1, frames := s.frames + [BeforeUvPoll])
    case UvPoll => s.(registered := true, pending := false,
                      frames := s.frames[..|s.frames| - 1] + [AfterUvPoll])
    case UvReturn => s.(frames := s.frames[..|s.frames| - 1] + [Posting])
    case UvPost => s.(frames := s.frames[..|s.frames| - 1], sem := s.sem + 1)
    case WatcherQueueChanged => s.(pending := true)
    case StartDestructor => s.(main := InDestructor)
    case SetClosed => s.(main := ClosedSet, closed := true)
    case DestructorPost => s.(main := SemPosted, sem := s.sem + 1)
    case DestructorWakeup => s.(main := Joining, pending := true)
    case Join => s.(main := Destroyed)
    case SemWait => s.(embed := CheckingToPoll, sem := s.sem - 1)
    case CheckToPoll => s.(embed := if s.closed then Exited else EnteringPoll)
    case EnterPoll => s.(embed := Polling)
    case LeavePoll(_) => s.(embed := CheckingToWake)
    case CheckToWake => s.(embed := if s.closed then Exited else Waking)
    case PostTask => s.(embed := Waiting, queue := s.queue + 1)
  }

  /** The state after a run of steps by either thread, if every step was enabled in turn. */
  function Exec(s: State, run: seq<Action>): Option<State>
    decreases run
  {
    if run == [] then Some(s)
    else if Enabled(s, run[0]) then Exec(Apply(s, run[0]), run[1..])
    else None
  }

  ghost predicate Reachable(s: State) {
    exists run :: Exec(INIT, run) == Some(s)
  }

  /** The embed thread has taken a semaphore count that it has not yet passed on. */
  function Held(e: EmbedPc): nat {
    if e.NotCreated? || e.Waiting? then 0 else 1
  }

  predicate DestructorPosted(s: State) {
    s.main.SemPosted? || s.main.Joining? || s.main.Destroyed?
  }

  /** The embed thread passed the first check while the bindings were open. */
  predicate PastFirstCheck(e: EmbedPc) {
    e.EnteringPoll? || e.Polling? || e.CheckingToWake? || e.Waking?
  }

  ghost predicate Inv(s: State) {
    && (s.embed.NotCreated? <==> s.main.Unprepared?)
    && (s.main.Unprepared? ==> s.sem == 0)
    && s.sem + Held(s.embed) + s.queue + |s.frames| == s.runs + (if DestructorPosted(s) then 1 else 0)
    && (s.closed <==> s.main.ClosedSet? || DestructorPosted(s))
    && (s.embed.Exited? ==> s.closed)
    && (s.runs > 0 ==> s.loopSet)
    && (forall i :: 0 <= i < |s.frames| ==> s.frames[i].BeforeUvPoll? || s.registered)
    && (!DestructorPosted(s) && s.sem + Held(s.embed) + s.queue > 0 ==> s.registered)
    && (PastFirstCheck(s.embed) ==> s.registered && s.loopSet)
    && (DestructorPosted(s) && (s.embed.Waiting? || s.embed.Waking?) ==> s.sem > 0)
    && ((s.main.Joining? || s.main.Destroyed?) ==> s.pending)
    && (s.main.Destroyed? ==> s.embed.Exited?)
  }

  /** Steps inside UvRunOnce. */
  predicate UvStep(a: Action) {
    a.UvPoll? || a.UvReturn? || a.UvPost?
  }

  /** Steps of the embed thread. */
  predicate EmbedStep(a: Action) {
    a.SemWait? || a.CheckToPoll? || a.EnterPoll? || a.LeavePoll? || a.CheckToWake? || a.PostTask?
  }

  lemma InvUvStep(s: State, a: Action)
    requires Inv(s) && Enabled(s, a) && UvStep(a)
    ensures Inv(Apply(s, a))
  {}

  lemma InvEmbedStep(s: State, a: Action)
    requires Inv(s) && Enabled(s, a) && EmbedStep(a)
    ensures Inv(Apply(s, a))
  {}

  lemma InvMainStep(s: State, a: Action)
    requires Inv(s) && Enabled(s, a) && !UvStep(a) && !EmbedStep(a)
    ensures Inv(Apply(s, a))
  {}

  lemma InvStep(s: State, a: Action)
    requires Inv(s) && Enabled(s, a)
    ensures Inv(Apply(s, a))
  {
    if UvStep(a) {
      InvUvStep(s, a);
    } else if EmbedStep(a) {
      InvEmbedStep(s, a);
    } else {
      InvMainStep(s, a);
    }
  }

  lemma {:induction false} InvExec(s: State, run: seq<Action>)
    requires Inv(s) && Exec(s, run).Some?
    ensures Inv(Exec(s, run).value)
    decreases run
  {
    if run == [] {
    } else {
      InvStep(s, run[0]);
      InvExec(Apply(s, run[0]), run[1..]);
    }
  }

  lemma ReachableInv(s: State)
    requires Reachable(s)
    ensures Inv(s)
  {
    var run :| Exec(INIT, run) == Some(s);
    InvExec(INIT, run);
  }

  // ---- Before the destructor

  /** Every call of RunMessageLoop puts exactly one token into circulation: a semaphore count, the embed
      thread between wait and wakeup, a queued task, or an active UvRunOnce. */
  lemma TokensAreConserved(s: State)
    requires Reachable(s) && !DestructorPosted(s)
    ensures s.sem + Held(s.embed) + s.queue + |s.frames| == s.runs
  {
    ReachableInv(s);
  }

  /** With one call of RunMessageLoop, polling and running libuv exclude each other and tasks never pile up. */
  lemma PollAndRunExclude(s: State)
    requires Reachable(s) && !DestructorPosted(s) && s.runs <= 1
    ensures !(s.embed.Polling? && s.frames != [])
    ensures s.queue <= 1 && s.sem <= 1 && |s.frames| <= 1
  {
    ReachableInv(s);
  }

  /** The message loop is known whenever the embed thread posts to it, and uv_run has armed the wakeup
      before any poll begins. */
  lemma MessageLoopIsSet(s: State)
    requires Reachable(s)
    ensures s.embed.Waking? ==> s.loopSet && Enabled(s, PostTask)
    ensures s.embed.EnteringPoll? || s.embed.Polling? ==> s.registered
  {
    ReachableInv(s);
  }

  // ---- Wakeups and events

  predicate Sends(a: Action) {
    a.WatcherQueueChanged? || a.DestructorWakeup?
  }

  /** The action at `i` sends a wakeup that uv_run has not drained since. */
  ghost predicate SentAndKept(run: seq<Action>, i: nat) {
    i < |run| && Sends(run[i]) && forall j :: i < j < |run| ==> run[j] != UvPoll
  }

  /** A wakeup is pending exactly when one was sent and not drained since. */
  lemma {:induction false} PendingMeans(s: State, run: seq<Action>)
    requires Exec(s, run).Some? && !s.pending
    ensures Exec(s, run).value.pending <==> exists i :: SentAndKept(run, i)
    decreases |run|
  {
    if run == [] {
    } else {
      var last := |run| - 1;
      assert run == run[..last] + [run[last]];
      ExecSplit(s, run[..last], run[last]);
      PendingMeans(s, run[..last]);
      if Sends(run[last]) {
        assert SentAndKept(run, last);
      } else if run[last] != UvPoll {
        forall i: nat ensures SentAndKept(run, i) <==> SentAndKept(run[..last], i) {}
      }
    }
  }

  lemma {:induction false} ExecSplit(s: State, run: seq<Action>, a: Action)
    requires Exec(s, run + [a]).Some?
    ensures Exec(s, run).Some? && Enabled(Exec(s, run).value, a)
    ensures Exec(s, run + [a]) == Some(Apply(Exec(s, run).value, a))
    decreases run
  {
    if run == [] {
      assert [] + [a] == [a] && [a][1..] == [];
    } else {
      assert (run + [a])[1..] == run[1..] + [a] && (run + [a])[0] == run[0];
      ExecSplit(Apply(s, run[0]), run[1..], a);
    }
  }

  /** Without an event from outside, the poll ends only because of a wakeup sent and not drained since. */
  lemma WokenOnlyBySent(run: seq<Action>, s: State)
    requires Exec(INIT, run) == Some(s) && Enabled(s, LeavePoll(false))
    ensures exists i :: SentAndKept(run, i)
  {
    PendingMeans(INIT, run);
  }

  /** A new watcher breaks the poll: the embed thread can leave it without any event from outside. */
  lemma WatcherBreaksPoll(s: State)
    requires Reachable(s) && s.embed.Polling? && Enabled(s, WatcherQueueChanged)
    ensures Enabled(Apply(s, WatcherQueueChanged), LeavePoll(false))
  {
    ReachableInv(s);
  }

  /** It stays so, whatever either thread does, until the poll is left or uv_run drains the wakeup. */
  lemma {:induction false} WakeupStays(s: State, run: seq<Action>)
    requires Inv(s) && Enabled(s, LeavePoll(false)) && Exec(s, run).Some?
    requires UvPoll !in run && forall a :: a in run ==> !a.LeavePoll?
    ensures Enabled(Exec(s, run).value, LeavePoll(false))
    decreases run
  {
    if run == [] {
    } else {
      assert run[0] in run && forall a :: a in run[1..] ==> a in run;
      InvStep(s, run[0]);
      WakeupStays(Apply(s, run[0]), run[1..]);
    }
  }

  /** The embed thread's way from the poll to the post, by the steps still to take. */
  function ToPost(e: EmbedPc): nat {
    match e
    case Polling => 3
    case CheckingToWake => 2
    case Waking => 1
    case _ => 0
  }

  function EmbedSteps(run: seq<Action>): nat {
    if run == [] then 0 else (if EmbedStep(run[0]) then 1 else 0) + EmbedSteps(run[1..])
  }

  /** While the bindings stay open, in any interleaving the third step that the thread takes from the poll on is
      to post UvRunOnce. */
  lemma {:induction false} PollLeadsToTask(s: State, run: seq<Action>)
    requires Inv(s) && ToPost(s.embed) > 0 && Exec(s, run).Some? && !Exec(s, run).value.closed
    requires EmbedSteps(run) >= ToPost(s.embed)
    ensures PostTask in run
    decreases run
  {
    var a, s' := run[0], Apply(s, run[0]);
    InvStep(s, a);
    ClosedStays(s', run[1..]);
    assert run == [a] + run[1..];
    if a != PostTask {
      PollLeadsToTask(s', run[1..]);
    }
  }

  lemma {:induction false} ClosedStays(s: State, run: seq<Action>)
    requires Exec(s, run).Some?
    ensures s.closed ==> Exec(s, run).value.closed
    decreases run
  {
    if run == [] {
    } else {
      ClosedStays(Apply(s, run[0]), run[1..]);
    }
  }

  predicate Leads(s: State, a: Action, s': State) {
    Enabled(s, a) && Apply(s, a) == s'
  }

  lemma ExecThree(s: State, a: Action, s1: State, b: Action, s2: State, c: Action, s3: State)
    requires Leads(s, a, s1) && Leads(s1, b, s2) && Leads(s2, c, s3)
    ensures Exec(s, [a, b, c]) == Some(s3)
  {
    assert Exec(s3, []) == Some(s3);
    assert [c][1..] == [] && Exec(s2, [c]) == Some(s3);
    assert [b, c][1..] == [c] && Exec(s1, [b, c]) == Some(s3);
    assert [a, b, c][1..] == [b, c];
  }

  /** While the bindings are open, leaving the poll posts one task, and the thread waits again. */
  lemma PollPostsTask(s: State, external: bool)
    requires Reachable(s) && !s.closed && Enabled(s, LeavePoll(external))
    ensures Exec(s, [LeavePoll(external), CheckToWake, PostTask]) == Some(s.(embed := Waiting, queue := s.queue + 1))
  {
    ReachableInv(s);
    var left := s.(embed := CheckingToWake);
    ExecThree(s, LeavePoll(external), left, CheckToWake, left.(embed := Waking), PostTask,
              s.(embed := Waiting, queue := s.queue + 1));
  }

  lemma TaskStarts(s: State, taken: State)
    requires Enabled(s, RunTask) && taken == s.(queue := s.queue - 1)
    ensures Leads(s, RunTask, taken.(frames := s.frames + [BeforeUvPoll])) && MainFree(taken)
  {}

  lemma UvPollsInFrame(s: State)
    requires MainFree(s)
    ensures Leads(s.(frames := s.frames + [BeforeUvPoll]), UvPoll,
                  s.(registered := true, pending := false, frames := s.frames + [AfterUvPoll]))
  {
    assert s.frames + [AfterUvPoll] == (s.frames + [BeforeUvPoll])[..|s.frames|] + [AfterUvPoll];
  }

  lemma UvReturnsInFrame(s: State)
    requires s.main.Alive?
    ensures Leads(s.(frames := s.frames + [AfterUvPoll]), UvReturn, s.(frames := s.frames + [Posting]))
  {
    assert (s.frames + [AfterUvPoll])[..|s.frames|] == s.frames;
  }

  lemma UvPostsFromFrame(s: State)
    requires s.main.Alive?
    ensures Leads(s.(frames := s.frames + [Posting]), UvPost, s.(sem := s.sem + 1))
  {
    assert (s.frames + [Posting])[..|s.frames|] == s.frames;
  }

  /** The main thread runs the task: uv_run handles what there is, and one semaphore count goes back. */
  lemma TaskRunsUv(s: State)
    requires Enabled(s, RunTask)
    ensures var taken := s.(queue := s.queue - 1);
      var run := taken.(registered := true, pending := false);
      && Leads(s, RunTask, taken.(frames := s.frames + [BeforeUvPoll]))
      && Leads(taken.(frames := s.frames + [BeforeUvPoll]), UvPoll, run.(frames := s.frames + [AfterUvPoll]))
      && Leads(run.(frames := s.frames + [AfterUvPoll]), UvReturn, run.(frames := s.frames + [Posting]))
      && Leads(run.(frames := s.frames + [Posting]), UvPost, run.(sem := s.sem + 1))
  {
    var taken := s.(queue := s.queue - 1);
    TaskStarts(s, taken);
    UvPollsInFrame(taken);
    UvReturnsInFrame(taken.(registered := true, pending := false));
    UvPostsFromFrame(taken.(registered := true, pending := false));
  }

  /** A semaphore count lets the waiting thread poll again. */
  lemma CountLeadsToPoll(s: State)
    requires Reachable(s) && !s.closed && s.embed.Waiting? && s.sem > 0
    ensures Exec(s, [SemWait, CheckToPoll, EnterPoll]) == Some(s.(embed := Polling, sem := s.sem - 1))
  {
    var waited := s.(embed := CheckingToPoll, sem := s.sem - 1);
    ExecThree(s, SemWait, waited, CheckToPoll, waited.(embed := EnteringPoll), EnterPoll,
              s.(embed := Polling, sem := s.sem - 1));
  }

  // ---- Shutdown

  function MainLeft(m: MainPc): nat {
    match m
    case Unprepared | Alive => 5
    case InDestructor => 4
    case ClosedSet => 3
    case SemPosted => 2
    case Joining => 1
    case Destroyed => 0
  }

  function EmbedLeft(e: EmbedPc): nat {
    match e
    case NotCreated | Waiting | Exited => 0
    case CheckingToPoll => 5
    case EnteringPoll => 4
    case Polling => 3
    case CheckingToWake => 2
    case Waking => 1
  }

  /** A bound on the steps left, of both threads together, once the destructor has started. */
  function Work(s: State): nat {
    7 * MainLeft(s.main) + 6 * s.sem + EmbedLeft(s.embed)
  }

  predicate ShuttingDown(s: State) {
    !s.main.Unprepared? && !s.main.Alive?
  }

  lemma WorkDecreases(s: State, a: Action)
    requires ShuttingDown(s) && Enabled(s, a)
    ensures ShuttingDown(Apply(s, a)) && Work(Apply(s, a)) < Work(s)
  {}

  lemma {:induction false} ShutdownIsBounded(s: State, run: seq<Action>)
    requires ShuttingDown(s) && Exec(s, run).Some?
    ensures |run| + Work(Exec(s, run).value) <= Work(s)
    ensures ShuttingDown(Exec(s, run).value)
    decreases run
  {
    if run == [] {
    } else {
      WorkDecreases(s, run[0]);
      ShutdownIsBounded(Apply(s, run[0]), run[1..]);
    }
  }

  /** The step that the threads can take on their own, without any event from outside. */
  function NextShutdownStep(s: State): Action
    requires Inv(s) && ShuttingDown(s) && !s.main.Destroyed?
  {
    match s.main
    case InDestructor => SetClosed
    case ClosedSet => DestructorPost
    case SemPosted => DestructorWakeup
    case Joining =>
      match s.embed
      case Exited => Join
      case Waiting => SemWait
      case CheckingToPoll => CheckToPoll
      case EnteringPoll => EnterPoll
      case Polling => LeavePoll(false)
      case CheckingToWake => CheckToWake
      case Waking => PostTask
  }

  /** From any interleaving in which the destructor has started, every run is bounded, and one that has
      not yet reached the end of the destructor can go on without outside help. So the join completes. */
  lemma ShutdownCompletes(s: State, run: seq<Action>)
    requires Reachable(s) && ShuttingDown(s) && Exec(s, run).Some?
    ensures |run| <= Work(s)
    ensures var t := Exec(s, run).value;
      t.main.Destroyed? || (Inv(t) && ShuttingDown(t) && Enabled(t, NextShutdownStep(t)))
  {
    ReachableInv(s);
    InvExec(s, run);
    ShutdownIsBounded(s, run);
  }

  /** Once joined, neither thread takes another step, so PollEvents is not entered again. */
  lemma NothingAfterJoin(s: State, a: Action)
    requires Reachable(s) && s.main.Destroyed?
    ensures !Enabled(s, a)
  {
    ReachableInv(s);
  }

  // ---- PollEvents during the destructor

  ghost predicate EntersPoll(s: State, run: seq<Action>) {
    Exec(s, run).Some? && EnterPoll in run
  }

  /** Can the embed thread still enter PollEvents from here? */
  predicate CanStillPoll(s: State) {
    || s.embed.EnteringPoll?
    || (!s.closed && (s.embed.CheckingToPoll? || (s.sem > 0 && !s.embed.Exited?)))
  }

  lemma {:induction false} CanStillPollShrinks(s: State, run: seq<Action>)
    requires Inv(s) && ShuttingDown(s) && !CanStillPoll(s) && Exec(s, run).Some?
    ensures EnterPoll !in run
    decreases run
  {
    if run == [] {
    } else {
      InvStep(s, run[0]);
      CanStillPollShrinks(Apply(s, run[0]), run[1..]);
      assert run == [run[0]] + run[1..];
    }
  }

  lemma {:induction false} RunIntoPoll(s: State) returns (run: seq<Action>)
    requires Inv(s) && ShuttingDown(s) && CanStillPoll(s)
    ensures EntersPoll(s, run)
    decreases s.sem, EmbedLeft(s.embed)
  {
    var a := match s.embed
      case Waiting => SemWait
      case CheckingToPoll => CheckToPoll
      case Polling => LeavePoll(true)
      case CheckingToWake => CheckToWake
      case Waking => PostTask
      case _ => EnterPoll;
    if a == EnterPoll {
      run := [EnterPoll];
      assert Exec(Apply(s, EnterPoll), []).Some? && run[1..] == [];
    } else {
      InvStep(s, a);
      var rest := RunIntoPoll(Apply(s, a));
      run := [a] + rest;
      assert run[1..] == rest;
    }
  }

  /** After the destructor has started, some continuation enters PollEvents exactly when the embed thread
      is past its first check, or a semaphore count lets it get there before the closed flag is set. */
  lemma PollsDuringDestructor(s: State)
    requires Reachable(s) && ShuttingDown(s)
    ensures (exists run :: EntersPoll(s, run)) <==> CanStillPoll(s)
  {
    ReachableInv(s);
    if CanStillPoll(s) {
      var run := RunIntoPoll(s);
    } else {
      forall run | Exec(s, run).Some? ensures EnterPoll !in run {
        CanStillPollShrinks(s, run);
      }
    }
  }

  lemma {:induction false} ExecAppend(s: State, run: seq<Action>, a: Action)
    requires Exec(s, run).Some? && Enabled(Exec(s, run).value, a)
    ensures Exec(s, run + [a]) == Some(Apply(Exec(s, run).value, a))
    decreases run
  {
    if run == [] {
      assert [a][1..] == [];
      assert Exec(Apply(s, a), []) == Some(Apply(s, a));
    } else {
      ExecAppend(Apply(s, run[0]), run[1..], a);
      assert (run + [a])[1..] == run[1..] + [a];
    }
  }

  lemma ReachableStep(s: State, a: Action)
    requires Reachable(s) && Enabled(s, a)
    ensures Reachable(Apply(s, a))
  {
    var run :| Exec(INIT, run) == Some(s);
    ExecAppend(INIT, run, a);
  }

  lemma FirstUvRunPosted()
    ensures Reachable(State(Alive, [], Waiting, 1, false, true, 0, 1, true, false))
  {
    assert Exec(INIT, []) == Some(INIT);
    var s := INIT;
    ReachableStep(s, Prepare);
    s := Apply(s, Prepare);
    ReachableStep(s, RunMessageLoop);
    s := Apply(s, RunMessageLoop);
    ReachableStep(s, UvPoll);
    s := Apply(s, UvPoll);
    ReachableStep(s, UvReturn);
    s := Apply(s, UvReturn);
    ReachableStep(s, UvPost);
  }

  /** A reachable state in which the closed flag is set and the embed thread is about to call PollEvents,
      on an object whose derived part is already gone. */
  lemma PollsAfterClosed() returns (s: State)
    ensures Reachable(s) && s.closed && Enabled(s, EnterPoll)
  {
    FirstUvRunPosted();
    s := State(Alive, [], Waiting, 1, false, true, 0, 1, true, false);
    ReachableStep(s, SemWait);
    s := Apply(s, SemWait);
    ReachableStep(s, CheckToPoll);
    s := Apply(s, CheckToPoll);
    ReachableStep(s, StartDestructor);
    s := Apply(s, StartDestructor);
    ReachableStep(s, SetClosed);
    s := Apply(s, SetClosed);
  }
}
