/** The job factory and the protocol registry, in the source's own steps. */
module Protocol {
  import opened Wrappers
  import opened ProtocolSpec

  class AtomURLRequestJobFactory {
    var handlers: map<HandlerId, Handler>
    var protocolHandlerMap: map<Scheme, HandlerId>
    var nextId: HandlerId

    function View(): Io
      reads this
    {
      Io(handlers, protocolHandlerMap, nextId)
    }

    constructor (native: map<HandlerId, Handler>, table: map<Scheme, HandlerId>, nextId: HandlerId)
      ensures View() == Io(native, table, nextId)
    {
      handlers, protocolHandlerMap, this.nextId := native, table, nextId;
    }

    /** Destroys a handler and, in turn, what it owns. */
    method DeleteHandler(id: HandlerId)
      modifies this`handlers
      ensures handlers == Delete(old(handlers), id)
    {
      var current, more := id, id in handlers;
      while more
        invariant more ==> current in handlers
        invariant Delete(old(handlers), id) == if more then Delete(handlers, current) else handlers
        decreases more, current
      {
        var h := handlers[current];
        handlers := handlers - {current};
        if h.Custom? && h.original.Some? && h.original.value < current && h.original.value in handlers {
          current := h.original.value;
        } else {
          more := false;
        }
      }
    }

    method SetProtocolHandler(scheme: Scheme, handler: Option<HandlerId>) returns (ok: bool)
      modifies this
      ensures (View(), ok) == SetHandler(old(View()), scheme, handler)
      ensures ok <==> (handler.Some? <==> scheme !in old(protocolHandlerMap))
      ensures !ok ==> View() == old(View())
      ensures ok ==> protocolHandlerMap == match handler
                                           case None => old(protocolHandlerMap) - {scheme}
                                           case Some(id) => old(protocolHandlerMap)[scheme := id]
    {
      if handler.None? {
        if scheme !in protocolHandlerMap {
          return false;
        }
        DeleteHandler(protocolHandlerMap[scheme]);
        protocolHandlerMap := protocolHandlerMap - {scheme};
        return true;
      }
      if scheme in protocolHandlerMap {
        return false;
      }
      protocolHandlerMap := protocolHandlerMap[scheme := handler.value];
      return true;
    }

    method ReplaceProtocol(scheme: Scheme, handler: HandlerId) returns (original: Option<HandlerId>)
      modifies this`protocolHandlerMap
      ensures (View(), original) == ReplaceHandler(old(View()), scheme, handler)
      ensures original.Some? <==> scheme in old(protocolHandlerMap)
      ensures original.Some? ==> original.value == old(protocolHandlerMap)[scheme]
                                 && protocolHandlerMap == old(protocolHandlerMap)[scheme := handler]
      ensures original.None? ==> protocolHandlerMap == old(protocolHandlerMap)
    {
      if scheme !in protocolHandlerMap {
        return None;
      }
      original := Some(protocolHandlerMap[scheme]);
      protocolHandlerMap := protocolHandlerMap[scheme := handler];
    }

    method GetProtocolHandler(scheme: Scheme) returns (handler: Option<HandlerId>)
      ensures handler == GetHandler(View(), scheme)
    {
      if scheme in protocolHandlerMap {
        return Some(protocolHandlerMap[scheme]);
      }
      return None;
    }

    method NewCustomProtocolHandler(original: Option<HandlerId>) returns (id: HandlerId)
      modifies this
      ensures id == old(nextId) && View() == NewCustom(old(View()), original)
    {
      id := nextId;
      handlers, nextId := handlers[id := Custom(original)], nextId + 1;
    }

    method ReleaseDefaultProtocolHandler(id: HandlerId) returns (original: Option<HandlerId>)
      requires id in handlers && handlers[id].Custom?
      modifies this`handlers
      ensures original == old(handlers)[id].original
      ensures handlers == old(handlers)[id := Custom(None)]
    {
      original := handlers[id].original;
      handlers := handlers[id := Custom(None)];
    }
  }

  class Registry {
    const jobFactory: AtomURLRequestJobFactory
    const builtin: set<Scheme>
    var protocolHandlers: map<Scheme, Callback>
    var tasks: seq<Task>
    ghost var modes: map<Scheme, Mode>

    ghost function View(): System
      reads this, jobFactory
    {
      System(protocolHandlers, modes, tasks, jobFactory.View())
    }

    /** A call that throws changes nothing; another leaves these entries and posts this one task. */
    ghost predicate Recorded(thrown: bool, before: map<Scheme, Callback>, queued: seq<Task>,
                             after: map<Scheme, Callback>, task: Task)
      reads this
    {
      if thrown then protocolHandlers == before && tasks == queued
      else protocolHandlers == after && tasks == queued + [task]
    }

    constructor (factory: AtomURLRequestJobFactory, builtin: set<Scheme>)
      ensures jobFactory == factory && this.builtin == builtin
      ensures View() == System(map[], map[], [], factory.View())
    {
      jobFactory, this.builtin := factory, builtin;
      protocolHandlers, tasks, modes := map[], [], map[];
    }

    method RegisterProtocol(scheme: Scheme, callback: Callback) returns (thrown: bool)
      modifies this
      ensures thrown <==>
                scheme in old(protocolHandlers) || scheme in jobFactory.protocolHandlerMap || scheme in builtin
      ensures Recorded(thrown, old(protocolHandlers), old(tasks), old(protocolHandlers)[scheme := callback],
                       Register(scheme))
      ensures View() == UiStep(old(View()), builtin, RegisterCall(scheme, callback))
    {
      if scheme in protocolHandlers || scheme in jobFactory.protocolHandlerMap || scheme in builtin {
        return true;
      }
      protocolHandlers, modes := protocolHandlers[scheme := callback], modes[scheme := Registered];
      tasks := tasks + [Register(scheme)];
      return false;
    }

    method UnregisterProtocol(scheme: Scheme) returns (thrown: bool)
      modifies this
      ensures thrown <==> scheme !in old(protocolHandlers)
      ensures Recorded(thrown, old(protocolHandlers), old(tasks), old(protocolHandlers) - {scheme}, Unregister(scheme))
      ensures View() == UiStep(old(View()), builtin, UnregisterCall(scheme))
    {
      if scheme !in protocolHandlers {
        return true;
      }
      protocolHandlers, modes := protocolHandlers - {scheme}, modes - {scheme};
      tasks := tasks + [Unregister(scheme)];
      return false;
    }

    method InterceptProtocol(scheme: Scheme, callback: Callback) returns (thrown: bool)
      modifies this
      ensures thrown <==> scheme !in jobFactory.protocolHandlerMap || scheme in old(protocolHandlers)
      ensures Recorded(thrown, old(protocolHandlers), old(tasks), old(protocolHandlers)[scheme := callback],
                       Intercept(scheme))
      ensures View() == UiStep(old(View()), builtin, InterceptCall(scheme, callback))
    {
      if scheme !in jobFactory.protocolHandlerMap {
        return true;
      }
      if scheme in protocolHandlers {
        return true;
      }
      protocolHandlers, modes := protocolHandlers[scheme := callback], modes[scheme := Intercepted];
      tasks := tasks + [Intercept(scheme)];
      return false;
    }

    method UninterceptProtocol(scheme: Scheme) returns (thrown: bool)
      modifies this
      ensures thrown <==> scheme !in old(protocolHandlers)
      ensures Recorded(thrown, old(protocolHandlers), old(tasks), old(protocolHandlers) - {scheme}, Unintercept(scheme))
      ensures View() == UiStep(old(View()), builtin, UninterceptCall(scheme))
    {
      if scheme !in protocolHandlers {
        return true;
      }
      protocolHandlers, modes := protocolHandlers - {scheme}, modes - {scheme};
      tasks := tasks + [Unintercept(scheme)];
      return false;
    }

    /** Looking up an absent scheme leaves an empty callback behind. */
    method GetProtocolHandler(scheme: Scheme) returns (callback: Callback)
      modifies this`protocolHandlers
      ensures View() == UiStep(old(View()), builtin, LookUp(scheme))
      ensures callback == if scheme in old(protocolHandlers) then old(protocolHandlers)[scheme] else NoCallback
    {
      if scheme !in protocolHandlers {
        protocolHandlers := protocolHandlers[scheme := NoCallback];
      }
      return protocolHandlers[scheme];
    }

    /** The IO thread runs the oldest task. */
    method RunIoTask() returns (outcome: Outcome)
      requires tasks != []
      modifies this`tasks, jobFactory
      ensures View() == IoStep(old(View()))
      ensures outcome == RunTask(old(jobFactory.View()), old(tasks)[0]).1
    {
      var t := tasks[0];
      tasks := tasks[1..];
      match t
      case Register(s) =>
        var h := jobFactory.NewCustomProtocolHandler(None);
        var ignored := jobFactory.SetProtocolHandler(s, Some(h));
        outcome := Done;
      case Unregister(s) =>
        var ignored := jobFactory.SetProtocolHandler(s, None);
        outcome := Done;
      case Intercept(s) => outcome := InterceptProtocolInIO(s);
      case Unintercept(s) => outcome := UninterceptProtocolInIO(s);
    }

    method InterceptProtocolInIO(s: Scheme) returns (outcome: Outcome)
      modifies jobFactory
      ensures (jobFactory.View(), outcome) == RunTask(old(jobFactory.View()), Intercept(s))
    {
      var original := jobFactory.GetProtocolHandler(s);
      if original.None? {
        return NothingToIntercept;
      }
      var h := jobFactory.NewCustomProtocolHandler(original);
      var replaced := jobFactory.ReplaceProtocol(s, h);
      return Done;
    }

    /** The source does not check what it finds: a null handler or one of another class is a crash. */
    method UninterceptProtocolInIO(s: Scheme) returns (outcome: Outcome)
      modifies jobFactory
      ensures (jobFactory.View(), outcome) == RunTask(old(jobFactory.View()), Unintercept(s))
    {
      var handler := jobFactory.GetProtocolHandler(s);
      if handler.None? || handler.value !in jobFactory.handlers || jobFactory.handlers[handler.value].Native? {
        return Crash;
      }
      if jobFactory.handlers[handler.value].original.None? {
        return NotIntercepted;
      }
      var original := jobFactory.ReleaseDefaultProtocolHandler(handler.value);
      var replaced := jobFactory.ReplaceProtocol(s, original.value);
      jobFactory.DeleteHandler(replaced.value);
      return Done;
    }
  }
}
