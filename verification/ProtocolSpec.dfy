/** Custom protocols: what the UI thread records, what it posts to the IO thread, and what the posted tasks do. */
module ProtocolSpec {
  import opened Wrappers

  type Scheme = string
  type HandlerId = nat

  /** `NoCallback` is what looking up an absent scheme leaves behind. */
  datatype Callback = NoCallback | JsFunction(name: string)

  /** A handler object of the job factory. A custom one may own the handler it stands in front of. */
  datatype Handler = Native | Custom(original: Option<HandlerId>)

  /** The IO thread's side: live handler objects and the factory's table. */
  datatype Io = Io(handlers: map<HandlerId, Handler>, table: map<Scheme, HandlerId>, nextId: HandlerId)

  datatype Task = Register(scheme: Scheme) | Unregister(scheme: Scheme) | Intercept(scheme: Scheme)
                | Unintercept(scheme: Scheme)

  /** What one task reports: the event it emits, or a crash on a null or foreign handler. */
  datatype Outcome = Done | NothingToIntercept | NotIntercepted | Crash

  /** Deleting a handler deletes what it owns. Handlers only ever wrap older ones. */
  function Delete(handlers: map<HandlerId, Handler>, id: HandlerId): map<HandlerId, Handler>
    decreases id
  {
    if id !in handlers then handlers
    else match handlers[id]
      case Native => handlers - {id}
      case Custom(None) => handlers - {id}
      case Custom(Some(o)) => if o < id then Delete(handlers - {id}, o) else handlers - {id}
  }

  function GetHandler(io: Io, s: Scheme): Option<HandlerId> {
    if s in io.table then Some(io.table[s]) else None
  }

  function SetHandler(io: Io, s: Scheme, handler: Option<HandlerId>): (Io, bool) {
    match handler
    case None =>
      if s !in io.table then (io, false)
      else (io.(handlers := Delete(io.handlers, io.table[s]), table := io.table - {s}), true)
    case Some(id) =>
      if s in io.table then (io, false)
      else (io.(table := io.table[s := id]), true)
  }

  function ReplaceHandler(io: Io, s: Scheme, id: HandlerId): (Io, Option<HandlerId>) {
    if s !in io.table then (io, None)
    else (io.(table := io.table[s := id]), Some(io.table[s]))
  }

  function NewCustom(io: Io, original: Option<HandlerId>): Io {
    io.(handlers := io.handlers[io.nextId := Custom(original)], nextId := io.nextId + 1)
  }

  function RunTask(io: Io, t: Task): (Io, Outcome) {
    match t
    case Register(s) => (SetHandler(NewCustom(io, None), s, Some(io.nextId)).0, Done)
    case Unregister(s) => (SetHandler(io, s, None).0, Done)
    case Intercept(s) =>
      var original := GetHandler(io, s);
      if original.None? then (io, NothingToIntercept)
      else (ReplaceHandler(NewCustom(io, original), s, io.nextId).0, Done)
    case Unintercept(s) =>
      var handler := GetHandler(io, s);
      if handler.None? || handler.value !in io.handlers || io.handlers[handler.value].Native? then (io, Crash)
      else match io.handlers[handler.value].original
        case None => (io, NotIntercepted)
        case Some(o) =>
          var released := io.(handlers := io.handlers[handler.value := Custom(None)]);
          var replaced := ReplaceHandler(released, s, o).0;
          (replaced.(handlers := Delete(replaced.handlers, handler.value)), Done)
  }

  /** How the last accepted call for a scheme entered it. The source does not record this. */
  datatype Mode = Registered | Intercepted

  datatype System = System(ui: map<Scheme, Callback>, modes: map<Scheme, Mode>, queue: seq<Task>, io: Io)

  datatype Call =
    | RegisterCall(scheme: Scheme, callback: Callback)
    | UnregisterCall(scheme: Scheme)
    | InterceptCall(scheme: Scheme, callback: Callback)
    | UninterceptCall(scheme: Scheme)
    | LookUp(scheme: Scheme)

  /** Does the call go through, rather than throw? `builtin` are the schemes the net stack handles itself. */
  predicate Accepted(sys: System, builtin: set<Scheme>, c: Call) {
    match c
    case RegisterCall(s, _) => s !in sys.ui && s !in sys.io.table && s !in builtin
    case UnregisterCall(s) => s in sys.ui
    case InterceptCall(s, _) => s in sys.io.table && s !in sys.ui
    case UninterceptCall(s) => s in sys.ui
    case LookUp(_) => true
  }

  /** A call on the UI thread: it reads the factory as it is now, and posts the work. */
  function UiStep(sys: System, builtin: set<Scheme>, c: Call): System {
    if !Accepted(sys, builtin, c) then sys
    else match c
      case RegisterCall(s, cb) =>
        sys.(ui := sys.ui[s := cb], modes := sys.modes[s := Registered], queue := sys.queue + [Register(s)])
      case UnregisterCall(s) =>
        sys.(ui := sys.ui - {s}, modes := sys.modes - {s}, queue := sys.queue + [Unregister(s)])
      case InterceptCall(s, cb) =>
        sys.(ui := sys.ui[s := cb], modes := sys.modes[s := Intercepted], queue := sys.queue + [Intercept(s)])
      case UninterceptCall(s) =>
        sys.(ui := sys.ui - {s}, modes := sys.modes - {s}, queue := sys.queue + [Unintercept(s)])
      case LookUp(s) => if s in sys.ui then sys else sys.(ui := sys.ui[s := NoCallback])
  }

  /** The IO thread takes the oldest task. */
  function IoStep(sys: System): System
    requires sys.queue != []
  {
    sys.(io := RunTask(sys.io, sys.queue[0]).0, queue := sys.queue[1..])
  }
}
