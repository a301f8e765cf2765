/** The UI map predicts the factory that the drained IO queue leaves behind. */
module ProtocolProofs {
  import opened Wrappers
  import opened ProtocolSpec

  /** What the factory holds for one scheme. `Broken` marks a task that failed or crashed. */
  datatype Shape = Absent | Plain | Unwrapped(id: HandlerId) | Wraps(id: HandlerId) | Broken

  function ShapeOf(io: Io, s: Scheme): Shape {
    if s !in io.table then Absent
    else if io.table[s] !in io.handlers then Broken
    else match io.handlers[io.table[s]]
      case Native => Unwrapped(io.table[s])
      case Custom(None) => Plain
      case Custom(Some(o)) => if o in io.handlers && io.handlers[o].Native? then Wraps(o) else Broken
  }

  function TaskShape(shape: Shape, t: Task): Shape {
    match (t, shape)
    case (Register(_), Absent) => Plain
    case (Unregister(_), Plain) => Absent
    case (Unregister(_), Unwrapped(_)) => Absent
    case (Unregister(_), Wraps(_)) => Absent
    case (Intercept(_), Unwrapped(id)) => Wraps(id)
    case (Unintercept(_), Wraps(id)) => Unwrapped(id)
    case _ => Broken
  }

  /** What a scheme will hold once the tasks in the queue have run. */
  function Plan(shape: Shape, queue: seq<Task>, s: Scheme): Shape
    decreases queue
  {
    if queue == [] then shape
    else Plan(if queue[0].scheme == s then TaskShape(shape, queue[0]) else shape, queue[1..], s)
  }

  lemma {:induction false} PlanAppend(shape: Shape, queue: seq<Task>, t: Task, s: Scheme)
    ensures Plan(shape, queue + [t], s)
         == if t.scheme == s then TaskShape(Plan(shape, queue, s), t) else Plan(shape, queue, s)
    decreases queue
  {
    if queue == [] {
      assert [t][1..] == [];
      assert Plan(if t.scheme == s then TaskShape(shape, t) else shape, [], s) == Plan(shape, queue + [t], s);
    } else {
      PlanAppend(if queue[0].scheme == s then TaskShape(shape, queue[0]) else shape, queue[1..], t, s);
      assert (queue + [t])[1..] == queue[1..] + [t];
    }
  }

  // ---- Ownership

  datatype Owner = ByTable(s: Scheme) | ByHandler(h: HandlerId)

  ghost predicate Owns(io: Io, o: Owner, id: HandlerId) {
    match o
    case ByTable(s) => s in io.table && io.table[s] == id
    case ByHandler(h) => h in io.handlers && io.handlers[h] == Custom(Some(id))
  }

  /** `w` names an owner of each live handler, and of nothing else. */
  ghost predicate NamesOwners(io: Io, w: map<HandlerId, Owner>) {
    w.Keys == io.handlers.Keys && forall id :: id in w ==> id < io.nextId && Owns(io, w[id], id)
  }

  /** There are no owners but those that `w` names, and handlers only own older ones. */
  ghost predicate NamesAllOwners(io: Io, w: map<HandlerId, Owner>) {
    forall o, id: HandlerId :: Owns(io, o, id) ==> id in w && w[id] == o && (o.ByHandler? ==> id < o.h)
  }

  ghost predicate OwnerMap(io: Io, w: map<HandlerId, Owner>) {
    NamesOwners(io, w) && NamesAllOwners(io, w)
  }

  ghost predicate OwnedOnce(io: Io) {
    exists w :: OwnerMap(io, w)
  }

  /** Every live handler has exactly one owner, and owners hold only live handlers. */
  lemma ExactlyOneOwner(io: Io, id: HandlerId)
    requires OwnedOnce(io)
    ensures id in io.handlers <==> exists o :: Owns(io, o, id)
    ensures forall o, o' :: Owns(io, o, id) && Owns(io, o', id) ==> o == o'
  {
    var w :| OwnerMap(io, w);
  }

  // ---- One task

  /** The task runs cleanly, does to its scheme what the plan says and to no other scheme anything. */
  ghost predicate RunsAsPlanned(io: Io, t: Task) {
    var (io', outcome) := RunTask(io, t);
    && outcome.Done?
    && ShapeOf(io', t.scheme) == TaskShape(ShapeOf(io, t.scheme), t)
    && (forall s :: s != t.scheme ==> ShapeOf(io', s) == ShapeOf(io, s))
  }

  /** The handler belongs to scheme `s`, directly or through the custom handler there. */
  ghost predicate Private(io: Io, w: map<HandlerId, Owner>, s: Scheme, id: HandlerId) {
    id in w && s in io.table && (w[id] == ByTable(s) || w[id] == ByHandler(io.table[s]))
  }

  ghost predicate SameCell(io: Io, io': Io, id: HandlerId) {
    id in io.handlers && id in io'.handlers && io'.handlers[id] == io.handlers[id]
  }

  /** A change confined to the handlers of `s0` leaves the shape of every other scheme. */
  lemma ShapeFrame(io: Io, io': Io, w: map<HandlerId, Owner>, s0: Scheme, s: Scheme)
    requires OwnerMap(io, w) && s != s0
    requires s in io.table <==> s in io'.table
    requires s in io.table ==> io'.table[s] == io.table[s]
    requires forall id :: id in w && !Private(io, w, s0, id) ==> SameCell(io, io', id)
    ensures ShapeOf(io', s) == ShapeOf(io, s)
  {
    if s in io.table {
      var id := io.table[s];
      assert Owns(io, ByTable(s), id);
      if s0 in io.table {
        assert Owns(io, ByTable(s0), io.table[s0]);
      }
      assert SameCell(io, io', id);
      if io.handlers[id].Custom? && io.handlers[id].original.Some? {
        var o := io.handlers[id].original.value;
        assert Owns(io, ByHandler(id), o);
        assert SameCell(io, io', o);
      }
    }
  }

  // A new handler, owned by a scheme that had none.

  lemma OldOwnerKept(io: Io, io': Io, s: Scheme, w: map<HandlerId, Owner>, o: Owner, id: HandlerId)
    requires OwnerMap(io, w) && s !in io.table && o != ByTable(s)
    requires io' == Io(io.handlers[io.nextId := Custom(None)], io.table[s := io.nextId], io.nextId + 1)
    requires Owns(io, o, id) || Owns(io', o, id)
    ensures Owns(io, o, id) && Owns(io', o, id) && id in w && id != io.nextId
  {
    assert io.nextId !in w;
    assert Owns(io, o, id);
  }

  lemma RegisterNamesOwners(io: Io, io': Io, s: Scheme, w: map<HandlerId, Owner>)
    requires OwnerMap(io, w) && s !in io.table
    requires io' == Io(io.handlers[io.nextId := Custom(None)], io.table[s := io.nextId], io.nextId + 1)
    ensures NamesOwners(io', w[io.nextId := ByTable(s)])
  {
    var w' := w[io.nextId := ByTable(s)];
    forall id | id in w' ensures id < io'.nextId && Owns(io', w'[id], id) {
      if id == io.nextId {
        assert Owns(io', ByTable(s), id);
      } else {
        assert id in w && Owns(io, w[id], id) && id < io.nextId;
        OldOwnerKept(io, io', s, w, w[id], id);
      }
    }
  }

  lemma RegisterNamesAllOwners(io: Io, io': Io, s: Scheme, w: map<HandlerId, Owner>)
    requires OwnerMap(io, w) && s !in io.table
    requires io' == Io(io.handlers[io.nextId := Custom(None)], io.table[s := io.nextId], io.nextId + 1)
    ensures NamesAllOwners(io', w[io.nextId := ByTable(s)])
  {
    var w' := w[io.nextId := ByTable(s)];
    forall o, id: HandlerId | Owns(io', o, id) ensures id in w' && w'[id] == o && (o.ByHandler? ==> id < o.h) {
      if o != ByTable(s) {
        OldOwnerKept(io, io', s, w, o, id);
      }
    }
  }

  lemma RegisterResult(io: Io, s: Scheme)
    requires s !in io.table
    ensures RunTask(io, Register(s))
         == (Io(io.handlers[io.nextId := Custom(None)], io.table[s := io.nextId], io.nextId + 1), Done)
  {}

  lemma RegisterAsPlanned(io: Io, s: Scheme, w: map<HandlerId, Owner>) returns (w': map<HandlerId, Owner>)
    requires OwnerMap(io, w) && ShapeOf(io, s).Absent?
    ensures RunsAsPlanned(io, Register(s)) && OwnerMap(RunTask(io, Register(s)).0, w')
  {
    RegisterResult(io, s);
    w' := w[io.nextId := ByTable(s)];
    var io' := Io(io.handlers[io.nextId := Custom(None)], io.table[s := io.nextId], io.nextId + 1);
    RegisterNamesOwners(io, io', s, w);
    RegisterNamesAllOwners(io, io', s, w);
    RegisterShapes(io, io', s, w);
  }

  lemma RegisterShapes(io: Io, io': Io, s: Scheme, w: map<HandlerId, Owner>)
    requires OwnerMap(io, w) && s !in io.table
    requires io' == Io(io.handlers[io.nextId := Custom(None)], io.table[s := io.nextId], io.nextId + 1)
    ensures ShapeOf(io', s).Plain? && forall s' :: s' != s ==> ShapeOf(io', s') == ShapeOf(io, s')
  {
    forall s' | s' != s ensures ShapeOf(io', s') == ShapeOf(io, s') {
      ShapeFrame(io, io', w, s, s');
    }
  }

  lemma UnregisterAsPlanned(io: Io, s: Scheme, w: map<HandlerId, Owner>) returns (w': map<HandlerId, Owner>)
    requires OwnerMap(io, w) && !ShapeOf(io, s).Absent? && !ShapeOf(io, s).Broken?
    ensures RunsAsPlanned(io, Unregister(s)) && OwnerMap(RunTask(io, Unregister(s)).0, w')
  {
    var io' := RunTask(io, Unregister(s)).0;
    var h := io.table[s];
    assert Owns(io, ByTable(s), h);
    var gone := {h};
    if ShapeOf(io, s).Wraps? {
      var o := ShapeOf(io, s).id;
      assert Owns(io, ByHandler(h), o);
      gone := {h, o};
      assert o < h && (io.handlers - {h})[o].Native?;
      assert Delete(io.handlers - {h}, o) == io.handlers - {h} - {o};
    }
    assert io'.handlers == io.handlers - gone;
    w' := w - gone;
    forall o, id: HandlerId | Owns(io', o, id) ensures id in w' && w'[id] == o && (o.ByHandler? ==> id < o.h) {
      assert Owns(io, o, id);
    }
    forall s' | s' != s ensures ShapeOf(io', s') == ShapeOf(io, s') {
      ShapeFrame(io, io', w, s, s');
    }
  }

  lemma InterceptAsPlanned(io: Io, s: Scheme, w: map<HandlerId, Owner>) returns (w': map<HandlerId, Owner>)
    requires OwnerMap(io, w) && ShapeOf(io, s).Unwrapped?
    ensures RunsAsPlanned(io, Intercept(s)) && OwnerMap(RunTask(io, Intercept(s)).0, w')
  {
    var io' := RunTask(io, Intercept(s)).0;
    var h := io.table[s];
    assert Owns(io, ByTable(s), h);
    w' := w[h := ByHandler(io.nextId)][io.nextId := ByTable(s)];
    forall o, id: HandlerId | Owns(io', o, id) ensures id in w' && w'[id] == o && (o.ByHandler? ==> id < o.h) {
      assert Owns(io, o, id) || (o == ByTable(s) && id == io.nextId) || (o == ByHandler(io.nextId) && id == h);
    }
    forall s' | s' != s ensures ShapeOf(io', s') == ShapeOf(io, s') {
      ShapeFrame(io, io', w, s, s');
    }
  }

  lemma UninterceptAsPlanned(io: Io, s: Scheme, w: map<HandlerId, Owner>) returns (w': map<HandlerId, Owner>)
    requires OwnerMap(io, w) && ShapeOf(io, s).Wraps?
    ensures RunsAsPlanned(io, Unintercept(s)) && OwnerMap(RunTask(io, Unintercept(s)).0, w')
  {
    var io' := RunTask(io, Unintercept(s)).0;
    var h, n := io.table[s], ShapeOf(io, s).id;
    assert Owns(io, ByTable(s), h) && Owns(io, ByHandler(h), n);
    w' := (w - {h})[n := ByTable(s)];
    assert io'.handlers == io.handlers - {h};
    forall o, id: HandlerId | Owns(io', o, id) ensures id in w' && w'[id] == o && (o.ByHandler? ==> id < o.h) {
      assert Owns(io, o, id) || (o == ByTable(s) && id == n);
    }
    forall s' | s' != s ensures ShapeOf(io', s') == ShapeOf(io, s') {
      ShapeFrame(io, io', w, s, s');
    }
  }

  /** Whatever the plan allows happens. */
  lemma TaskAsPlanned(io: Io, t: Task)
    requires OwnedOnce(io) && !TaskShape(ShapeOf(io, t.scheme), t).Broken?
    ensures RunsAsPlanned(io, t) && OwnedOnce(RunTask(io, t).0)
  {
    var w :| OwnerMap(io, w);
    match t
    case Register(s) => var w' := RegisterAsPlanned(io, s, w);
    case Unregister(s) => var w' := UnregisterAsPlanned(io, s, w);
    case Intercept(s) => var w' := InterceptAsPlanned(io, s, w);
    case Unintercept(s) => var w' := UninterceptAsPlanned(io, s, w);
  }

  // ---- All interleavings

  /** What the UI thread's record promises for a scheme. */
  function Predict(modes: map<Scheme, Mode>, natives: map<Scheme, HandlerId>, s: Scheme): Shape {
    if s in modes then (if modes[s].Registered? || s !in natives then Plain else Wraps(natives[s]))
    else if s in natives then Unwrapped(natives[s])
    else Absent
  }

  ghost predicate PredictionHolds(sys: System, natives: map<Scheme, HandlerId>) {
    && sys.ui.Keys == sys.modes.Keys
    && forall s :: Plan(ShapeOf(sys.io, s), sys.queue, s) == Predict(sys.modes, natives, s)
  }

  /** Tasks that wrap and unwrap only ever concern native schemes; the others never do. */
  predicate TaskFits(t: Task, natives: map<Scheme, HandlerId>) {
    (t.Intercept? || t.Unintercept?) <==> t.scheme in natives
  }

  predicate ShapeFits(shape: Shape, natives: map<Scheme, HandlerId>, s: Scheme) {
    if s in natives then shape == Unwrapped(natives[s]) || shape == Wraps(natives[s])
    else shape.Absent? || shape.Plain?
  }

  ghost predicate Inv(sys: System, natives: map<Scheme, HandlerId>) {
    && OwnedOnce(sys.io)
    && PredictionHolds(sys, natives)
    && (forall s :: ShapeFits(ShapeOf(sys.io, s), natives, s))
    && (forall t :: t in sys.queue ==> TaskFits(t, natives))
    && (forall s :: s in sys.modes ==> (sys.modes[s].Intercepted? <==> s in natives))
  }

  /** What a caller must respect: undo each call with its own counterpart, do not intercept a scheme whose
      removal is still queued, and do not ask for a handler that is not there. */
  predicate Disciplined(sys: System, c: Call) {
    match c
    case RegisterCall(_, _) => true
    case UnregisterCall(s) => s in sys.modes ==> sys.modes[s].Registered?
    case InterceptCall(s, _) => s in sys.io.table && s !in sys.ui ==> Unregister(s) !in sys.queue
    case UninterceptCall(s) => s in sys.modes ==> sys.modes[s].Intercepted?
    case LookUp(s) => s in sys.ui
  }

  lemma {:induction false} PlanBroken(queue: seq<Task>, s: Scheme)
    ensures Plan(Broken, queue, s) == Broken
    decreases queue
  {
    if queue == [] {
    } else {
      PlanBroken(queue[1..], s);
    }
  }

  /** A custom scheme planned to vanish has an unregistration in the queue; one that is absent stays so
      or becomes a plain custom one. */
  lemma {:induction false} PlanOfCustom(shape: Shape, queue: seq<Task>, s: Scheme, natives: map<Scheme, HandlerId>)
    requires s !in natives && (shape.Absent? || shape.Plain?) && forall t :: t in queue ==> TaskFits(t, natives)
    ensures shape.Plain? && Plan(shape, queue, s).Absent? ==> Unregister(s) in queue
    decreases queue
  {
    if queue == [] {
    } else {
      var next := if queue[0].scheme == s then TaskShape(shape, queue[0]) else shape;
      assert queue[0] in queue && TaskFits(queue[0], natives);
      if next.Broken? {
        PlanBroken(queue[1..], s);
      } else {
        PlanOfCustom(next, queue[1..], s, natives);
      }
    }
  }

  /** A call keeps the prediction exactly when it is disciplined. */
  lemma CallKeepsPrediction(sys: System, builtin: set<Scheme>, natives: map<Scheme, HandlerId>, c: Call)
    requires Inv(sys, natives)
    ensures PredictionHolds(UiStep(sys, builtin, c), natives) <==> Disciplined(sys, c)
    ensures Disciplined(sys, c) ==> Inv(UiStep(sys, builtin, c), natives)
  {
    if Accepted(sys, builtin, c) && !c.LookUp? {
      var sys', s := UiStep(sys, builtin, c), c.scheme;
      var t := sys'.queue[|sys.queue|];
      PlansAfterPost(sys, natives, t);
      PostIsFit(sys, builtin, natives, c, t);
      assert Plan(ShapeOf(sys.io, s), sys.queue + [t], s) == TaskShape(Predict(sys.modes, natives, s), t);
      if !Disciplined(sys, c) {
        assert Plan(ShapeOf(sys'.io, s), sys'.queue, s) != Predict(sys'.modes, natives, s);
      }
    }
  }

  /** What the posted task does to a planned scheme is what the new record predicts, exactly when disciplined. */
  lemma PostIsFit(sys: System, builtin: set<Scheme>, natives: map<Scheme, HandlerId>, c: Call, t: Task)
    requires Inv(sys, natives) && Accepted(sys, builtin, c) && !c.LookUp?
    requires UiStep(sys, builtin, c).queue == sys.queue + [t]
    ensures t.scheme == c.scheme
    ensures var s := c.scheme;
      TaskShape(Predict(sys.modes, natives, s), t) == Predict(UiStep(sys, builtin, c).modes, natives, s)
      <==> Disciplined(sys, c)
    ensures Disciplined(sys, c) ==> TaskFits(t, natives)
  {
    var s := c.scheme;
    assert t == (sys.queue + [t])[|sys.queue|];
    assert ShapeFits(ShapeOf(sys.io, s), natives, s);
    assert Plan(ShapeOf(sys.io, s), sys.queue, s) == Predict(sys.modes, natives, s);
    if s in natives {
      assert !TaskFits(Unregister(s), natives);
    } else {
      PlanOfCustom(ShapeOf(sys.io, s), sys.queue, s, natives);
    }
  }

  lemma PlansAfterPost(sys: System, natives: map<Scheme, HandlerId>, t: Task)
    requires PredictionHolds(sys, natives)
    ensures Plan(ShapeOf(sys.io, t.scheme), sys.queue + [t], t.scheme)
         == TaskShape(Predict(sys.modes, natives, t.scheme), t)
    ensures forall s :: s != t.scheme ==>
              Plan(ShapeOf(sys.io, s), sys.queue + [t], s) == Predict(sys.modes, natives, s)
  {
    forall s
      ensures Plan(ShapeOf(sys.io, s), sys.queue + [t], s)
           == if s == t.scheme then TaskShape(Predict(sys.modes, natives, s), t) else Predict(sys.modes, natives, s)
    {
      PlanAppend(ShapeOf(sys.io, s), sys.queue, t, s);
      assert Plan(ShapeOf(sys.io, s), sys.queue, s) == Predict(sys.modes, natives, s);
    }
  }

  /** Running the oldest task keeps everything, and the task succeeds: no error event, no null handler, and
      a registration is never refused by the factory. */
  lemma IoKeepsPrediction(sys: System, natives: map<Scheme, HandlerId>)
    requires Inv(sys, natives) && sys.queue != []
    ensures Inv(IoStep(sys), natives)
    ensures RunTask(sys.io, sys.queue[0]).1.Done?
    ensures sys.queue[0].Register? ==>
              SetHandler(NewCustom(sys.io, None), sys.queue[0].scheme, Some(sys.io.nextId)).1
  {
    var t := sys.queue[0];
    var shape := ShapeOf(sys.io, t.scheme);
    assert Plan(shape, sys.queue, t.scheme) == Predict(sys.modes, natives, t.scheme);
    if TaskShape(shape, t).Broken? {
      PlanBroken(sys.queue[1..], t.scheme);
    }
    TaskAsPlanned(sys.io, t);
    assert TaskFits(t, natives) && ShapeFits(shape, natives, t.scheme);
    forall s
      ensures Plan(ShapeOf(IoStep(sys).io, s), sys.queue[1..], s) == Predict(sys.modes, natives, s)
      ensures ShapeFits(ShapeOf(IoStep(sys).io, s), natives, s)
    {
      assert Plan(ShapeOf(sys.io, s), sys.queue, s) == Predict(sys.modes, natives, s);
      assert ShapeFits(ShapeOf(sys.io, s), natives, s);
    }
  }

  datatype Step = Ui(call: Call) | IoTurn

  predicate StepAllowed(sys: System, st: Step) {
    match st
    case Ui(c) => Disciplined(sys, c)
    case IoTurn => sys.queue != []
  }

  function Apply(sys: System, builtin: set<Scheme>, st: Step): System
    requires StepAllowed(sys, st)
  {
    match st
    case Ui(c) => UiStep(sys, builtin, c)
    case IoTurn => IoStep(sys)
  }

  /** Any interleaving of disciplined calls and IO tasks. */
  function Exec(sys: System, builtin: set<Scheme>, run: seq<Step>): Option<System>
    decreases run
  {
    if run == [] then Some(sys)
    else if StepAllowed(sys, run[0]) then Exec(Apply(sys, builtin, run[0]), builtin, run[1..])
    else None
  }

  /** At start-up the table holds the native handlers, each under one scheme. */
  ghost predicate Initial(sys: System, natives: map<Scheme, HandlerId>) {
    && sys.ui == map[] && sys.modes == map[] && sys.queue == [] && sys.io.table == natives
    && (forall s :: s in natives ==> natives[s] in sys.io.handlers && sys.io.handlers[natives[s]].Native?)
    && OwnedOnce(sys.io)
  }

  lemma InitialInv(sys: System, natives: map<Scheme, HandlerId>)
    requires Initial(sys, natives)
    ensures Inv(sys, natives)
  {
    InitialShapes(sys, natives);
  }

  lemma InitialShapes(sys: System, natives: map<Scheme, HandlerId>)
    requires Initial(sys, natives)
    ensures forall s :: ShapeOf(sys.io, s) == if s in natives then Unwrapped(natives[s]) else Absent
  {}

  lemma {:induction false} InvExec(sys: System, builtin: set<Scheme>, natives: map<Scheme, HandlerId>, run: seq<Step>)
    requires Inv(sys, natives) && Exec(sys, builtin, run).Some?
    ensures Inv(Exec(sys, builtin, run).value, natives)
    decreases run
  {
    if run == [] {
    } else {
      match run[0] {
        case Ui(c) => CallKeepsPrediction(sys, builtin, natives, c);
        case IoTurn => IoKeepsPrediction(sys, natives);
      }
      InvExec(Apply(sys, builtin, run[0]), builtin, natives, run[1..]);
    }
  }

  /** Draining the queue. */
  function Drain(sys: System): System
    decreases |sys.queue|
  {
    if sys.queue == [] then sys else Drain(IoStep(sys))
  }

  lemma {:induction false} DrainKeepsPrediction(sys: System, natives: map<Scheme, HandlerId>)
    requires Inv(sys, natives)
    ensures var d := Drain(sys);
      Inv(d, natives) && d.queue == [] && d.modes == sys.modes && d.ui == sys.ui
    decreases |sys.queue|
  {
    if sys.queue == [] {
    } else {
      IoKeepsPrediction(sys, natives);
      DrainKeepsPrediction(IoStep(sys), natives);
    }
  }

  /** After any disciplined interleaving, draining leaves under each scheme exactly what the UI map and the
      kind of the last call promise, with every handler owned once. In particular a scheme nobody holds any
      more has its very own native handler back. */
  lemma DrainedFactoryIsPredicted(sys: System, builtin: set<Scheme>, natives: map<Scheme, HandlerId>, run: seq<Step>,
                                  s: Scheme)
    requires Initial(sys, natives) && Exec(sys, builtin, run).Some?
    ensures var now := Exec(sys, builtin, run).value;
      && OwnedOnce(Drain(now).io)
      && ShapeOf(Drain(now).io, s) == Predict(now.modes, natives, s)
      && (s !in now.ui && s in natives ==> Drain(now).io.table[s] == natives[s])
      && (s in now.ui && s !in natives ==> ShapeOf(Drain(now).io, s).Plain?)
      && (s in now.ui && s in natives ==> ShapeOf(Drain(now).io, s) == Wraps(natives[s]))
  {
    InitialInv(sys, natives);
    InvExec(sys, builtin, natives, run);
    var now := Exec(sys, builtin, run).value;
    DrainKeepsPrediction(now, natives);
    assert Plan(ShapeOf(Drain(now).io, s), [], s) == Predict(now.modes, natives, s);
  }

  // ---- Schemes of the net stack, and callbacks

  /** Registering a scheme that the net stack handles itself changes nothing, in any state. */
  lemma BuiltinIsRefused(sys: System, builtin: set<Scheme>, s: Scheme, cb: Callback)
    requires s in builtin
    ensures !Accepted(sys, builtin, RegisterCall(s, cb)) && UiStep(sys, builtin, RegisterCall(s, cb)) == sys
  {}

  ghost predicate NoBuiltin(sys: System, builtin: set<Scheme>) {
    && (forall s :: s in sys.modes && sys.modes[s].Registered? ==> s !in builtin)
    && (forall t :: t in sys.queue && t.Register? ==> t.scheme !in builtin)
  }

  lemma NoBuiltinStep(sys: System, builtin: set<Scheme>, st: Step)
    requires NoBuiltin(sys, builtin) && StepAllowed(sys, st)
    ensures NoBuiltin(Apply(sys, builtin, st), builtin)
  {
    if st.IoTurn? {
      assert forall t :: t in sys.queue[1..] ==> t in sys.queue;
    }
  }

  lemma {:induction false} NoBuiltinExec(sys: System, builtin: set<Scheme>, run: seq<Step>)
    requires NoBuiltin(sys, builtin) && Exec(sys, builtin, run).Some?
    ensures NoBuiltin(Exec(sys, builtin, run).value, builtin)
    decreases run
  {
    if run == [] {
    } else {
      NoBuiltinStep(sys, builtin, run[0]);
      NoBuiltinExec(Apply(sys, builtin, run[0]), builtin, run[1..]);
    }
  }

  /** In every run, a scheme of the net stack is never registered, and the job factory comes to have no handler
      for it unless a native one was there from the start. */
  lemma BuiltinNeverRegistered(sys: System, builtin: set<Scheme>, natives: map<Scheme, HandlerId>, run: seq<Step>,
                               s: Scheme)
    requires Initial(sys, natives) && Exec(sys, builtin, run).Some? && s in builtin
    ensures var now := Exec(sys, builtin, run).value;
      && (s in now.modes ==> now.modes[s].Intercepted?)
      && (s !in natives ==> s !in now.ui && s !in Drain(now).io.table)
  {
    NoBuiltinExec(sys, builtin, run);
    DrainedFactoryIsPredicted(sys, builtin, natives, run, s);
    InitialInv(sys, natives);
    InvExec(sys, builtin, natives, run);
  }

  /** The callback under a scheme is that of the call accepted last for it, and calls for one scheme leave the
      callbacks of all others. */
  lemma CallbackIsLatest(sys: System, builtin: set<Scheme>, c: Call, s: Scheme)
    requires Accepted(sys, builtin, c) && (c.LookUp? ==> c.scheme in sys.ui)
    ensures var ui := UiStep(sys, builtin, c).ui;
      && (s != c.scheme ==> (s in ui <==> s in sys.ui) && (s in ui ==> ui[s] == sys.ui[s]))
      && (c.RegisterCall? || c.InterceptCall? ==> c.scheme in ui && ui[c.scheme] == c.callback)
      && (c.UnregisterCall? || c.UninterceptCall? ==> c.scheme !in ui)
      && (c.LookUp? ==> ui == sys.ui)
  {}

  // ---- What undisciplined calls do

  lemma {:induction false} ExecStep(sys: System, builtin: set<Scheme>, run: seq<Step>, now: System, st: Step)
    requires Exec(sys, builtin, run) == Some(now) && StepAllowed(now, st)
    ensures Exec(sys, builtin, run + [st]) == Some(Apply(now, builtin, st))
    decreases run
  {
    if run == [] {
      assert [st][1..] == [] && run + [st] == [st];
      assert Exec(Apply(sys, builtin, st), builtin, []) == Some(Apply(sys, builtin, st));
    } else {
      ExecStep(Apply(sys, builtin, run[0]), builtin, run[1..], now, st);
      assert (run + [st])[1..] == run[1..] + [st];
    }
  }

  lemma PlanFollowsTask(shape: Shape, queue: seq<Task>, s: Scheme)
    requires queue != [] && !Plan(shape, queue, s).Broken? && queue[0].scheme == s
    ensures !TaskShape(shape, queue[0]).Broken?
  {
    PlanBroken(queue[1..], s);
  }

  /** Where nothing planned fails, draining does what is planned, whatever the UI thread recorded. */
  lemma {:induction false} DrainFollowsPlan(sys: System)
    requires OwnedOnce(sys.io) && forall s :: !Plan(ShapeOf(sys.io, s), sys.queue, s).Broken?
    ensures OwnedOnce(Drain(sys).io)
    ensures forall s :: ShapeOf(Drain(sys).io, s) == Plan(ShapeOf(sys.io, s), sys.queue, s)
    decreases |sys.queue|
  {
    if sys.queue == [] {
    } else {
      var t := sys.queue[0];
      PlanFollowsTask(ShapeOf(sys.io, t.scheme), sys.queue, t.scheme);
      TaskAsPlanned(sys.io, t);
      forall s
        ensures Plan(ShapeOf(IoStep(sys).io, s), sys.queue[1..], s) == Plan(ShapeOf(sys.io, s), sys.queue, s)
      {}
      DrainFollowsPlan(IoStep(sys));
    }
  }

  lemma ReachIntercepted(sys: System, builtin: set<Scheme>, natives: map<Scheme, HandlerId>, s: Scheme, cb: Callback)
    returns (run: seq<Step>, now: System)
    requires Initial(sys, natives) && s in natives
    ensures Exec(sys, builtin, run) == Some(now) && Inv(now, natives)
    ensures now == System(map[s := cb], map[s := Intercepted], [Intercept(s)], sys.io)
  {
    InitialInv(sys, natives);
    now := UiStep(sys, builtin, InterceptCall(s, cb));
    run := [] + [Ui(InterceptCall(s, cb))];
    ExecStep(sys, builtin, [], sys, Ui(InterceptCall(s, cb)));
    InvExec(sys, builtin, natives, run);
  }

  lemma UnregisterPosts(builtin: set<Scheme>, s: Scheme, cb: Callback, io: Io)
    ensures UiStep(System(map[s := cb], map[s := Intercepted], [Intercept(s)], io), builtin, UnregisterCall(s))
         == System(map[], map[], [Intercept(s)] + [Unregister(s)], io)
  {
    assert map[s := cb] - {s} == map[];
    assert map[s := Intercepted] - {s} == map[];
  }

  /** Wrapping a native handler and then unregistering its scheme leaves nothing there. */
  lemma DrainedUnregistration(sys: System, initial: System, natives: map<Scheme, HandlerId>, s: Scheme)
    requires Initial(initial, natives) && s in natives
    requires sys.io == initial.io && sys.queue == [Intercept(s)] + [Unregister(s)]
    ensures ShapeOf(Drain(sys).io, s).Absent?
  {
    InitialShapes(initial, natives);
    forall x ensures Plan(ShapeOf(sys.io, x), sys.queue, x) == if x == s then Absent else ShapeOf(sys.io, x) {
      PlanOfTwo(ShapeOf(sys.io, x), Intercept(s), Unregister(s), x);
    }
    DrainFollowsPlan(sys);
  }

  lemma AbsentIsGone(io: Io, s: Scheme)
    requires ShapeOf(io, s).Absent?
    ensures s !in io.table
  {}

  /** Unregistering an interception is accepted and deletes the native handler with its wrapper. */
  lemma UnregisterInterception(sys: System, builtin: set<Scheme>, natives: map<Scheme, HandlerId>, s: Scheme,
                               cb: Callback) returns (run: seq<Step>, now: System)
    requires Initial(sys, natives) && s in natives
    ensures Exec(sys, builtin, run) == Some(now) && Accepted(now, builtin, UnregisterCall(s))
    ensures var after := UiStep(now, builtin, UnregisterCall(s));
      !PredictionHolds(after, natives) && s !in Drain(after).io.table
  {
    run, now := ReachIntercepted(sys, builtin, natives, s, cb);
    CallKeepsPrediction(now, builtin, natives, UnregisterCall(s));
    UnregisterPosts(builtin, s, cb, sys.io);
    var after := UiStep(now, builtin, UnregisterCall(s));
    DrainedUnregistration(after, sys, natives, s);
    AbsentIsGone(Drain(after).io, s);
  }

  lemma PlanOfTwo(shape: Shape, t: Task, u: Task, s: Scheme)
    requires t.scheme == u.scheme
    ensures Plan(shape, [t] + [u], s) == if t.scheme == s then TaskShape(TaskShape(shape, t), u) else shape
  {
    PlanAppend(shape, [t], u, s);
    PlanAppend(shape, [], t, s);
    assert [] + [t] == [t];
  }

  /** A scheme of no native handler has been registered, and the IO thread has caught up. */
  lemma ReachRegistered(sys: System, builtin: set<Scheme>, natives: map<Scheme, HandlerId>, s: Scheme, cb: Callback)
    returns (run: seq<Step>, now: System)
    requires Initial(sys, natives) && s !in natives && s !in builtin
    ensures Exec(sys, builtin, run) == Some(now) && Inv(now, natives)
    ensures now.ui == map[s := cb] && now.modes == map[s := Registered] && now.queue == []
    ensures ShapeOf(now.io, s).Plain?
  {
    InitialInv(sys, natives);
    var posted := UiStep(sys, builtin, RegisterCall(s, cb));
    ExecStep(sys, builtin, [], sys, Ui(RegisterCall(s, cb)));
    run := [] + [Ui(RegisterCall(s, cb))] + [IoTurn];
    ExecStep(sys, builtin, [] + [Ui(RegisterCall(s, cb))], posted, IoTurn);
    now := IoStep(posted);
    InvExec(sys, builtin, natives, run);
    assert Plan(ShapeOf(now.io, s), [], s) == Predict(now.modes, natives, s);
  }

  /** Unintercepting a registration is accepted, reports an error and leaves the scheme handled. */
  lemma UninterceptRegistration(sys: System, builtin: set<Scheme>, natives: map<Scheme, HandlerId>, s: Scheme,
                                cb: Callback) returns (run: seq<Step>, now: System)
    requires Initial(sys, natives) && s !in natives && s !in builtin
    ensures Exec(sys, builtin, run) == Some(now) && Accepted(now, builtin, UninterceptCall(s))
    ensures var after := UiStep(now, builtin, UninterceptCall(s));
      && !PredictionHolds(after, natives)
      && RunTask(after.io, after.queue[0]).1 == NotIntercepted
      && s !in after.ui && s in Drain(after).io.table
  {
    run, now := ReachRegistered(sys, builtin, natives, s, cb);
    CallKeepsPrediction(now, builtin, natives, UninterceptCall(s));
    var after := UiStep(now, builtin, UninterceptCall(s));
    assert after.queue == [Unintercept(s)] && after.io == now.io;
    assert IoStep(after).queue == [] && IoStep(after).io == now.io;
    assert Drain(after) == Drain(IoStep(after)) == IoStep(after);
  }

  /** Looking up an unknown scheme makes it look registered: it can no longer be registered. */
  lemma LookUpUnknown(sys: System, builtin: set<Scheme>, natives: map<Scheme, HandlerId>, s: Scheme, cb: Callback)
    requires Initial(sys, natives) && s !in natives && s !in builtin
    ensures Accepted(sys, builtin, RegisterCall(s, cb))
    ensures var after := UiStep(sys, builtin, LookUp(s));
      && !PredictionHolds(after, natives)
      && !Accepted(after, builtin, RegisterCall(s, cb)) && s !in Drain(after).io.table
  {
    InitialInv(sys, natives);
    CallKeepsPrediction(sys, builtin, natives, LookUp(s));
  }

  /** A race: unregistering a scheme and at once intercepting it is accepted, although the interception will
      find nothing. */
  lemma InterceptAfterUnregister(sys: System, builtin: set<Scheme>, natives: map<Scheme, HandlerId>, s: Scheme,
                                 cb: Callback) returns (run: seq<Step>, now: System)
    requires Initial(sys, natives) && s !in natives && s !in builtin
    ensures Exec(sys, builtin, run) == Some(now) && Accepted(now, builtin, InterceptCall(s, cb))
    ensures var after := UiStep(now, builtin, InterceptCall(s, cb));
      && !PredictionHolds(after, natives)
      && |after.queue| == 2 && RunTask(IoStep(after).io, after.queue[1]).1 == NothingToIntercept
      && s in after.ui && s !in Drain(after).io.table
  {
    var registered, before := ReachRegistered(sys, builtin, natives, s, cb);
    run, now := registered + [Ui(UnregisterCall(s))], UiStep(before, builtin, UnregisterCall(s));
    ExecStep(sys, builtin, registered, before, Ui(UnregisterCall(s)));
    CallKeepsPrediction(before, builtin, natives, UnregisterCall(s));
    CallKeepsPrediction(now, builtin, natives, InterceptCall(s, cb));
    var after := UiStep(now, builtin, InterceptCall(s, cb));
    assert after.queue == [Unregister(s), Intercept(s)];
    var first := IoStep(after);
    assert first.queue == [Intercept(s)] && s !in first.io.table;
    assert IoStep(first).queue == [] && IoStep(first).io == first.io;
    assert Drain(after) == Drain(first) == Drain(IoStep(first)) == IoStep(first);
  }
}
