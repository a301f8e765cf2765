/** Speech synthesis: several dispatchers share one stream of messages and one counter of utterance ids. */
module TtsDispatch {
  import opened Wrappers

  type UtteranceId = int

  datatype Utterance = NullUtterance | Utterance(text: string)

  datatype Message =
    | DidStartSpeaking(id: UtteranceId)
    | DidFinishSpeaking(id: UtteranceId)
    | DidPauseSpeaking(id: UtteranceId)
    | DidResumeSpeaking(id: UtteranceId)
    | WordBoundary(id: UtteranceId, charIndex: nat)
    | SentenceBoundary(id: UtteranceId, charIndex: nat)
    | MarkerEvent(id: UtteranceId, marker: int)
    | WasInterrupted(id: UtteranceId)
    | WasCancelled(id: UtteranceId)
    | SpeakingErrorOccurred(id: UtteranceId)

  datatype Callback = Started | Finished | Paused | Resumed | Word(at: nat) | Sentence(at: nat) | Error

  predicate Terminal(c: Callback) {
    c.Finished? || c.Error?
  }

  type Utterances = map<UtteranceId, Utterance>

  /** The callback a message leads to, for an utterance that is found. Markers are not supported. */
  function CallbackFor(msg: Message): Option<Callback> {
    match msg
    case DidStartSpeaking(_) => Some(Started)
    case DidFinishSpeaking(_) => Some(Finished)
    case DidPauseSpeaking(_) => Some(Paused)
    case DidResumeSpeaking(_) => Some(Resumed)
    case WordBoundary(_, i) => Some(Word(i))
    case SentenceBoundary(_, i) => Some(Sentence(i))
    case MarkerEvent(_, _) => None
    case WasInterrupted(_) => Some(Finished)
    case WasCancelled(_) => Some(Finished)
    case SpeakingErrorOccurred(_) => Some(Error)
  }

  /** One dispatcher handles one message. */
  function Handle(m: Utterances, msg: Message): (Utterances, Option<Callback>) {
    if msg.id !in m || m[msg.id].NullUtterance? || CallbackFor(msg).None? then (m, None)
    else if Terminal(CallbackFor(msg).value) then (m - {msg.id}, CallbackFor(msg))
    else (m, CallbackFor(msg))
  }

  /** The source's static counter. */
  class UtteranceIds {
    var next: UtteranceId

    constructor ()
      ensures next == 1
    {
      next := 1;
    }
  }

  class TtsDispatcher {
    const ids: UtteranceIds
    var utteranceIdMap: Utterances

    constructor (ids: UtteranceIds)
      ensures this.ids == ids && utteranceIdMap == map[]
    {
      this.ids, utteranceIdMap := ids, map[];
    }

    method Speak(u: Utterance) returns (id: UtteranceId)
      modifies this, ids
      ensures id == old(ids.next) && ids.next == id + 1
      ensures utteranceIdMap == old(utteranceIdMap)[id := u]
    {
      id := ids.next;
      ids.next := ids.next + 1;
      utteranceIdMap := utteranceIdMap[id := u];
    }

    method FindUtterance(id: UtteranceId) returns (u: Utterance)
      ensures u == if id in utteranceIdMap then utteranceIdMap[id] else NullUtterance
    {
      if id in utteranceIdMap {
        return utteranceIdMap[id];
      }
      return NullUtterance;
    }

    method OnControlMessageReceived(msg: Message) returns (callback: Option<Callback>)
      modifies this
      ensures (utteranceIdMap, callback) == Handle(old(utteranceIdMap), msg)
      ensures msg.id !in old(utteranceIdMap) || old(utteranceIdMap)[msg.id].NullUtterance? ==>
                callback == None && utteranceIdMap == old(utteranceIdMap)
      ensures msg.id in old(utteranceIdMap) && old(utteranceIdMap)[msg.id].Utterance? ==>
                && (callback == None <==> msg.MarkerEvent?)
                && (callback == Some(Started) <==> msg.DidStartSpeaking?)
                && (callback == Some(Paused) <==> msg.DidPauseSpeaking?)
                && (callback == Some(Resumed) <==> msg.DidResumeSpeaking?)
                && (callback == Some(Error) <==> msg.SpeakingErrorOccurred?)
                && (callback == Some(Finished) <==>
                      msg.DidFinishSpeaking? || msg.WasInterrupted? || msg.WasCancelled?)
                && (msg.WordBoundary? ==> callback == Some(Word(msg.charIndex)))
                && (msg.SentenceBoundary? ==> callback == Some(Sentence(msg.charIndex)))
                && utteranceIdMap == if callback == Some(Finished) || callback == Some(Error)
                                     then old(utteranceIdMap) - {msg.id} else old(utteranceIdMap)
    {
      var u := FindUtterance(msg.id);
      if u.NullUtterance? {
        return None;
      }
      match msg
      case DidStartSpeaking(_) => callback := Some(Started);
      case DidPauseSpeaking(_) => callback := Some(Paused);
      case DidResumeSpeaking(_) => callback := Some(Resumed);
      case WordBoundary(_, i) => callback := Some(Word(i));
      case SentenceBoundary(_, i) => callback := Some(Sentence(i));
      case SpeakingErrorOccurred(_) =>
        callback := Some(Error);
        utteranceIdMap := utteranceIdMap - {msg.id};
      case DidFinishSpeaking(_) | WasInterrupted(_) | WasCancelled(_) =>
        callback := Some(Finished);
        utteranceIdMap := utteranceIdMap - {msg.id};
      case MarkerEvent(_, _) => callback := None;
    }
  }

  // ---- All dispatchers of a process

  datatype Entry = Entry(dispatcher: nat, id: UtteranceId, callback: Callback)

  /** `speaker` remembers who spoke each id; `log` is every callback made. */
  datatype System = System(maps: seq<Utterances>, next: UtteranceId, speaker: map<UtteranceId, nat>, log: seq<Entry>)

  datatype Op = NewDispatcher | Speaks(dispatcher: nat, u: Utterance) | Deliver(msg: Message)

  /** One dispatcher has handled the message. */
  function Handled(s: System, msg: Message, d: nat): System
    requires d < |s.maps|
  {
    var (m, c) := Handle(s.maps[d], msg);
    s.(maps := s.maps[d := m], log := if c.Some? then s.log + [Entry(d, msg.id, c.value)] else s.log)
  }

  /** Every dispatcher gets every message, in turn. */
  function DeliverFrom(s: System, msg: Message, d: nat): System
    requires d <= |s.maps|
    decreases |s.maps| - d
  {
    if d == |s.maps| then s else DeliverFrom(Handled(s, msg, d), msg, d + 1)
  }

  function Apply(s: System, op: Op): System {
    match op
    case NewDispatcher => s.(maps := s.maps + [map[]])
    case Speaks(d, u) =>
      if d >= |s.maps| then s
      else s.(maps := s.maps[d := s.maps[d][s.next := u]], next := s.next + 1, speaker := s.speaker[s.next := d])
    case Deliver(msg) => DeliverFrom(s, msg, 0)
  }

  function Exec(s: System, ops: seq<Op>): System
    decreases ops
  {
    if ops == [] then s else Exec(Apply(s, ops[0]), ops[1..])
  }

  const INIT := System([], 1, map[], [])

  /** Callbacks reach only the speaker, and none follows a terminal one. */
  ghost predicate LogOk(s: System) {
    && (forall i :: 0 <= i < |s.log| ==> s.log[i].id in s.speaker && s.speaker[s.log[i].id] == s.log[i].dispatcher)
    && (forall i, j :: 0 <= i < j < |s.log| && s.log[i].id == s.log[j].id ==> !Terminal(s.log[i].callback))
  }

  ghost predicate MapsOk(s: System) {
    && (forall d, id :: 0 <= d < |s.maps| && id in s.maps[d] ==> id in s.speaker && s.speaker[id] == d)
    && (forall d, id, i :: 0 <= d < |s.maps| && id in s.maps[d] && 0 <= i < |s.log| && s.log[i].id == id ==>
          !Terminal(s.log[i].callback))
    && (forall id :: id in s.speaker ==> id < s.next)
  }

  lemma HandledLogOk(s: System, msg: Message, d: nat)
    requires LogOk(s) && MapsOk(s) && d < |s.maps|
    ensures LogOk(Handled(s, msg, d))
  {
    if Concerned(s, msg, d) {
      assert msg.id in s.maps[d];
      LogOneMore(s, Entry(d, msg.id, CallbackFor(msg).value));
      assert Handled(s, msg, d).log == s.log + [Entry(d, msg.id, CallbackFor(msg).value)];
    } else {
      assert Handled(s, msg, d).log == s.log;
    }
  }

  lemma LogOneMore(s: System, e: Entry)
    requires LogOk(s) && e.id in s.speaker && s.speaker[e.id] == e.dispatcher
    requires forall i :: 0 <= i < |s.log| && s.log[i].id == e.id ==> !Terminal(s.log[i].callback)
    ensures LogOk(s.(log := s.log + [e]))
  {}

  lemma HandledMapsOk(s: System, msg: Message, d: nat)
    requires LogOk(s) && MapsOk(s) && d < |s.maps|
    ensures MapsOk(Handled(s, msg, d))
  {
    var s' := Handled(s, msg, d);
    forall e, id | 0 <= e < |s'.maps| && id in s'.maps[e]
      ensures id in s.maps[e] && (|s'.log| > |s.log| && id == msg.id ==> !Terminal(s'.log[|s.log|].callback))
    {
      assert id in s.maps[e] && s.speaker[id] == e;
      assert |s'.log| > |s.log| ==> msg.id in s.maps[d] && s.speaker[msg.id] == d;
    }
  }

  lemma {:induction false} DeliverOk(s: System, msg: Message, d: nat)
    requires LogOk(s) && MapsOk(s) && d <= |s.maps|
    ensures LogOk(DeliverFrom(s, msg, d)) && MapsOk(DeliverFrom(s, msg, d))
    decreases |s.maps| - d
  {
    if d == |s.maps| {
    } else {
      HandledLogOk(s, msg, d);
      HandledMapsOk(s, msg, d);
      DeliverOk(Handled(s, msg, d), msg, d + 1);
    }
  }

  /** A new id is nobody's and has had no callback. */
  lemma NewIdIsFresh(s: System)
    requires LogOk(s) && MapsOk(s)
    ensures s.next !in s.speaker
    ensures forall d :: 0 <= d < |s.maps| ==> s.next !in s.maps[d]
    ensures forall i :: 0 <= i < |s.log| ==> s.log[i].id != s.next
  {}

  lemma SpeakOk(s: System, d: nat, u: Utterance)
    requires LogOk(s) && MapsOk(s)
    ensures LogOk(Apply(s, Speaks(d, u))) && MapsOk(Apply(s, Speaks(d, u)))
  {
    NewIdIsFresh(s);
    var s' := Apply(s, Speaks(d, u));
    forall d', id | 0 <= d' < |s'.maps| && id in s'.maps[d']
      ensures id in s'.speaker && s'.speaker[id] == d'
      ensures forall i :: 0 <= i < |s'.log| && s'.log[i].id == id ==> !Terminal(s'.log[i].callback)
    {
      if id != s.next || d' != d {
        assert id in s.maps[d'];
      }
    }
  }

  lemma NewDispatcherOk(s: System)
    requires LogOk(s) && MapsOk(s)
    ensures LogOk(Apply(s, NewDispatcher)) && MapsOk(Apply(s, NewDispatcher))
  {
    forall d, id | 0 <= d <= |s.maps| && id in (s.maps + [map[]])[d] ensures d < |s.maps| && id in s.maps[d] {}
  }

  lemma {:induction false} ExecOk(s: System, ops: seq<Op>)
    requires LogOk(s) && MapsOk(s)
    ensures LogOk(Exec(s, ops)) && MapsOk(Exec(s, ops))
    decreases ops
  {
    if ops == [] {
    } else {
      match ops[0] {
        case NewDispatcher => NewDispatcherOk(s);
        case Speaks(d, u) => SpeakOk(s, d, u);
        case Deliver(msg) => DeliverOk(s, msg, 0);
      }
      ExecOk(Apply(s, ops[0]), ops[1..]);
    }
  }

  /** Whatever arrives and in whatever order: each utterance's callbacks go to the dispatcher that spoke it, at
      most one of them is terminal, and it is the last. */
  lemma CallbacksAreRouted(ops: seq<Op>, i: nat, j: nat)
    requires i < |Exec(INIT, ops).log| && j < |Exec(INIT, ops).log|
    ensures var s := Exec(INIT, ops);
      && s.log[i].id in s.speaker && s.log[i].dispatcher == s.speaker[s.log[i].id]
      && (s.log[i].id == s.log[j].id && Terminal(s.log[i].callback) ==> j <= i)
  {
    ExecOk(INIT, ops);
  }

  /** The dispatcher has an utterance that the message says something about. */
  predicate Concerned(s: System, msg: Message, d: nat) {
    d < |s.maps| && Handle(s.maps[d], msg).1.Some?
  }

  lemma {:induction false} DeliveredToNobody(s: System, msg: Message, k: nat)
    requires k <= |s.maps| && forall d :: k <= d ==> !Concerned(s, msg, d)
    ensures DeliverFrom(s, msg, k).log == s.log
    decreases |s.maps| - k
  {
    if k == |s.maps| {
    } else {
      assert !Concerned(s, msg, k);
      var s' := Handled(s, msg, k);
      forall d | k + 1 <= d ensures !Concerned(s', msg, d) {
        assert !Concerned(s, msg, d);
      }
      DeliveredToNobody(s', msg, k + 1);
    }
  }

  lemma HeldByOne(s: System, id: UtteranceId, d: nat, e: nat)
    requires MapsOk(s) && d < |s.maps| && e < |s.maps| && id in s.maps[d] && id in s.maps[e]
    ensures d == e
  {
    assert s.speaker[id] == d;
  }

  /** A message makes one callback, at the one dispatcher concerned, however many there are. */
  lemma {:induction false} DeliveredToSpeaker(s: System, msg: Message, k: nat, d: nat)
    requires MapsOk(s) && k <= d && Concerned(s, msg, d)
    ensures DeliverFrom(s, msg, k).log == s.log + [Entry(d, msg.id, CallbackFor(msg).value)]
    decreases |s.maps| - k
  {
    assert msg.id in s.maps[d];
    var s' := Handled(s, msg, k);
    if k == d {
      forall e | k + 1 <= e ensures !Concerned(s', msg, e) {
        if e < |s.maps| && msg.id in s.maps[e] {
          HeldByOne(s, msg.id, d, e);
        }
      }
      DeliveredToNobody(s', msg, k + 1);
    } else {
      if msg.id in s.maps[k] {
        HeldByOne(s, msg.id, d, k);
      }
      assert s'.maps == s.maps;
      DeliveredToSpeaker(s', msg, k + 1, d);
    }
  }

  predicate Ends(msg: Message) {
    msg.DidFinishSpeaking? || msg.WasInterrupted? || msg.WasCancelled? || msg.SpeakingErrorOccurred?
  }

  /** Only a message that ends an utterance makes it unknown, and only that utterance; no message changes what is
      known otherwise. */
  lemma {:induction false} DeliveryKeeps(s: System, msg: Message, k: nat, d: nat, id: UtteranceId)
    requires k <= d < |s.maps|
    ensures var s' := DeliverFrom(s, msg, k);
      && |s'.maps| == |s.maps| && s'.next == s.next && s'.speaker == s.speaker
      && (id in s'.maps[d] <==>
            id in s.maps[d] && !(id == msg.id && Ends(msg) && s.maps[d][id].Utterance?))
      && (id in s'.maps[d] ==> s'.maps[d][id] == s.maps[d][id])
    decreases |s.maps| - k
  {
    var s' := Handled(s, msg, k);
    if k == d {
      EarlierKept(s', msg, k + 1, d);
    } else {
      DeliveryKeeps(s', msg, k + 1, d, id);
    }
  }

  lemma {:induction false} EarlierKept(s: System, msg: Message, k: nat, d: nat)
    requires d < k <= |s.maps|
    ensures var s' := DeliverFrom(s, msg, k);
      |s'.maps| == |s.maps| && s'.maps[d] == s.maps[d] && s'.next == s.next && s'.speaker == s.speaker
    decreases |s.maps| - k
  {
    if k == |s.maps| {
    } else {
      EarlierKept(Handled(s, msg, k), msg, k + 1, d);
    }
  }

  /** An utterance just spoken is heard: the next message about it makes one callback, at its speaker. */
  lemma SpokenIsHeard(s: System, d: nat, u: Utterance, msg: Message)
    requires LogOk(s) && MapsOk(s) && d < |s.maps| && u.Utterance? && msg.id == s.next && !msg.MarkerEvent?
    ensures var s' := Apply(s, Speaks(d, u));
      && s'.next == s.next + 1 && s'.speaker == s.speaker[s.next := d]
      && Apply(s', Deliver(msg)).log == s.log + [Entry(d, msg.id, CallbackFor(msg).value)]
  {
    SpeakOk(s, d, u);
    var s' := Apply(s, Speaks(d, u));
    assert Concerned(s', msg, d);
    DeliveredToSpeaker(s', msg, 0, d);
  }
}
