/** Guest web views: the three tables that must agree, and what renderer swaps do to them. */
module GuestTables {
  import opened Wrappers

  type GuestId = int
  type ProcessId = int
  type WebContents = int

  datatype Info = Info(guestId: GuestId, embedder: WebContents, nodeIntegration: bool, plugins: bool,
                       disableWebSecurity: bool, preload: string)

  datatype ElementKey = ElementKey(embedderProcess: ProcessId, element: int)

  datatype Attachment = Attachment(webContents: WebContents, embedder: WebContents)

  datatype Tables = Tables(
    guests: map<GuestId, Attachment>,
    infos: map<ProcessId, Info>,
    elements: map<ElementKey, GuestId>)

  /** What was said about a guest when it was added. */
  datatype Record = Record(at: Attachment, key: ElementKey, info: Info)

  /** The current process of each web contents. */
  type Processes = map<WebContents, ProcessId>

  /** The tables say exactly what the live guests and their current processes call for. */
  ghost predicate Agree(t: Tables, live: map<GuestId, Record>, p: Processes) {
    && t.guests.Keys == live.Keys
    && (forall g :: g in live ==> GuestAgrees(t, live[g], g, p))
    && (forall id :: id in t.infos ==> Occupied(live, p, id))
    && (forall k :: k in t.elements ==> t.elements[k] in live && live[t.elements[k]].key == k)
    && (forall g, g' :: g in live && g' in live && g != g' ==> Apart(live[g], live[g'], p))
  }

  ghost predicate GuestAgrees(t: Tables, r: Record, g: GuestId, p: Processes) {
    && g in t.guests && t.guests[g] == r.at
    && r.at.webContents in p
    && p[r.at.webContents] in t.infos && t.infos[p[r.at.webContents]] == r.info
    && r.key in t.elements && t.elements[r.key] == g
  }

  ghost predicate HasProcess(live: map<GuestId, Record>, g: GuestId, p: Processes, id: ProcessId) {
    g in live && live[g].at.webContents in p && p[live[g].at.webContents] == id
  }

  ghost predicate Occupied(live: map<GuestId, Record>, p: Processes, id: ProcessId) {
    exists g :: HasProcess(live, g, p, id)
  }

  ghost predicate Apart(r: Record, r': Record, p: Processes) {
    && r.at.webContents in p && r'.at.webContents in p
    && r.at.webContents != r'.at.webContents
    && p[r.at.webContents] != p[r'.at.webContents]
    && r.key != r'.key
  }

  /** Live guests and processes leave no choice in any of the three tables. */
  lemma TablesAreDetermined(t: Tables, t': Tables, live: map<GuestId, Record>, p: Processes)
    requires Agree(t, live, p) && Agree(t', live, p)
    ensures t == t'
  {
    assert forall g :: g in live ==> GuestAgrees(t, live[g], g, p) && GuestAgrees(t', live[g], g, p);
    forall id | id in t.infos || id in t'.infos
      ensures id in t.infos && id in t'.infos && t.infos[id] == t'.infos[id]
    {
      assert Occupied(live, p, id);
      var g :| HasProcess(live, g, p, id);
    }
    assert t.infos == t'.infos;
    assert t.guests == t'.guests;
    assert t.elements == t'.elements;
  }

  // ---- What the operations do to the tables

  function Added(t: Tables, g: GuestId, at: Attachment, process: ProcessId, key: ElementKey, info: Info): Tables {
    Tables(t.guests[g := at], t.infos[process := info], t.elements[key := g])
  }

  /** One element that maps to the guest is forgotten, if there is one. */
  ghost predicate ElementForgotten(before: map<ElementKey, GuestId>, after: map<ElementKey, GuestId>, g: GuestId) {
    || (after == before && forall k :: k in before ==> before[k] != g)
    || (exists k :: k in before && before[k] == g && after == before - {k})
  }

  ghost predicate Removed(t: Tables, t': Tables, g: GuestId, p: Processes)
    requires g in t.guests ==> t.guests[g].webContents in p
  {
    if g !in t.guests then t' == t
    else
      && t'.guests == t.guests - {g}
      && t'.infos == t.infos - {p[t.guests[g].webContents]}
      && ElementForgotten(t.elements, t'.elements, g)
  }

  function Rekeyed(t: Tables, oldId: ProcessId, newId: ProcessId): Tables {
    if oldId !in t.infos then t
    else t.(infos := t.infos[newId := t.infos[oldId]] - {oldId})
  }

  lemma AddAgrees(t: Tables, live: map<GuestId, Record>, p: Processes, g: GuestId, r: Record)
    requires Agree(t, live, p)
    requires g !in live && r.at.webContents in p && p[r.at.webContents] !in t.infos && r.key !in t.elements
    ensures Agree(Added(t, g, r.at, p[r.at.webContents], r.key, r.info), live[g := r], p)
  {
    var t', live' := Added(t, g, r.at, p[r.at.webContents], r.key, r.info), live[g := r];
    forall id | id in t'.infos ensures Occupied(live', p, id) {
      if id == p[r.at.webContents] {
        assert HasProcess(live', g, p, id);
      } else {
        assert Occupied(live, p, id);
        var g' :| HasProcess(live, g', p, id);
        assert HasProcess(live', g', p, id);
      }
    }
    forall g' | g' in live' ensures GuestAgrees(t', live'[g'], g', p) {
      if g' != g {
        NewGuestApart(t, live, p, g', r);
      }
    }
    forall g1, g2 | g1 in live' && g2 in live' && g1 != g2 ensures Apart(live'[g1], live'[g2], p) {
      if g1 == g {
        NewGuestApart(t, live, p, g2, r);
      } else if g2 == g {
        NewGuestApart(t, live, p, g1, r);
      } else {
        assert Apart(live[g1], live[g2], p);
      }
    }
    forall k | k in t'.elements ensures t'.elements[k] in live' && live'[t'.elements[k]].key == k {
      assert k != r.key ==> t.elements[k] in live;
    }
  }

  lemma NewGuestApart(t: Tables, live: map<GuestId, Record>, p: Processes, g: GuestId, r: Record)
    requires Agree(t, live, p) && g in live
    requires r.at.webContents in p && p[r.at.webContents] !in t.infos && r.key !in t.elements
    ensures GuestAgrees(t, live[g], g, p) && Apart(live[g], r, p)
  {}

  lemma RemoveAgrees(t: Tables, t': Tables, live: map<GuestId, Record>, p: Processes, g: GuestId)
    requires Agree(t, live, p) && g in live && g in t.guests && t.guests[g].webContents in p && Removed(t, t', g, p)
    ensures Agree(t', live - {g}, p)
  {
    var live' := live - {g};
    assert GuestAgrees(t, live[g], g, p);
    assert t'.elements == t.elements - {live[g].key};
    forall id | id in t'.infos ensures Occupied(live', p, id) {
      assert id in t.infos ==> Occupied(live, p, id);
      var g' :| HasProcess(live, g', p, id);
      assert HasProcess(live', g', p, id);
    }
    forall g' | g' in live' ensures GuestAgrees(t', live'[g'], g', p) {
      assert GuestAgrees(t, live[g'], g', p) && Apart(live[g], live[g'], p);
    }
  }

  /** A guest moves to a fresh process and its row moves with it. */
  lemma RekeyAgrees(t: Tables, live: map<GuestId, Record>, p: Processes, g: GuestId, newId: ProcessId)
    requires Agree(t, live, p) && g in live && live[g].at.webContents in p && newId !in t.infos
    ensures Agree(Rekeyed(t, p[live[g].at.webContents], newId), live, p[live[g].at.webContents := newId])
  {
    var wc := live[g].at.webContents;
    var t', p' := Rekeyed(t, p[wc], newId), p[wc := newId];
    assert GuestAgrees(t, live[g], g, p);
    forall id | id in t'.infos ensures Occupied(live, p', id) {
      assert id in t.infos ==> Occupied(live, p, id);
      if id == newId {
        assert HasProcess(live, g, p', id);
      } else {
        var g' :| HasProcess(live, g', p, id);
        assert HasProcess(live, g', p', id);
      }
    }
    forall g' | g' in live && g' != g ensures GuestAgrees(t', live[g'], g', p') && Apart(live[g], live[g'], p') {
      assert GuestAgrees(t, live[g'], g', p) && Apart(live[g], live[g'], p);
    }
    forall g1, g2 | g1 in live && g2 in live && g1 != g2 ensures Apart(live[g1], live[g2], p') {
      assert Apart(live[g1], live[g2], p);
    }
  }

  /** A web contents that is no guest may change its process freely. */
  lemma OtherProcessAgrees(t: Tables, live: map<GuestId, Record>, p: Processes, wc: WebContents, newId: ProcessId)
    requires Agree(t, live, p) && newId !in t.infos && forall g :: g in live ==> live[g].at.webContents != wc
    ensures Agree(t, live, p[wc := newId])
  {
    var p' := p[wc := newId];
    forall id | id in t.infos ensures Occupied(live, p', id) {
      assert Occupied(live, p, id);
      var g :| HasProcess(live, g, p, id);
      assert HasProcess(live, g, p', id);
    }
    forall g | g in live ensures GuestAgrees(t, live[g], g, p') {
      assert GuestAgrees(t, live[g], g, p);
    }
    forall g1, g2 | g1 in live && g2 in live && g1 != g2 ensures Apart(live[g1], live[g2], p') {
      assert Apart(live[g1], live[g2], p);
    }
  }

  // ---- A new renderer is launched

  datatype Switches = NoSwitches | OfWindow(process: ProcessId) | OfGuest(info: Info)

  /** The owner of a new child process is a window that has it, a window that has the dying process, or the
      guest that had the dying process. */
  function Launched(t: Tables, dying: Option<ProcessId>, child: ProcessId, windows: set<ProcessId>)
    : (Tables, Switches)
  {
    if child in windows then (t, OfWindow(child))
    else if dying.Some? && dying.value in windows then (t, OfWindow(dying.value))
    else
      var t' := if dying.Some? then Rekeyed(t, dying.value, child) else t;
      (t', if child in t'.infos then OfGuest(t'.infos[child]) else NoSwitches)
  }

  /** A window's renderer gets the window's switches, under the process that the window has at the time, and no row
      moves; a renderer gets no switches only when it is neither a window's nor, afterwards, in the table. */
  lemma SwitchesOfWindow(t: Tables, dying: Option<ProcessId>, child: ProcessId, windows: set<ProcessId>)
    ensures var (t', switches) := Launched(t, dying, child, windows);
      && (child in windows ==> switches == OfWindow(child) && t' == t)
      && (child !in windows && dying.Some? && dying.value in windows ==> switches == OfWindow(dying.value) && t' == t)
      && (switches.OfWindow? ==>
            switches.process in windows && (switches.process == child || dying == Some(switches.process)))
      && (switches.OfGuest? ==> child in t'.infos && switches.info == t'.infos[child])
      && (switches.NoSwitches? ==>
            child !in windows && child !in t'.infos && (dying.Some? ==> dying.value !in windows))
  {}

  ghost predicate IsGuest(live: map<GuestId, Record>, g: GuestId, wc: WebContents) {
    g in live && live[g].at.webContents == wc
  }

  /** The process remembered as dying is the one that the new renderer replaces, as far as guests go. */
  ghost predicate DyingFits(t: Tables, live: map<GuestId, Record>, p: Processes, wc: WebContents,
                            dying: Option<ProcessId>) {
    if exists g :: IsGuest(live, g, wc) then wc in p && dying == Some(p[wc])
    else dying.None? || dying.value !in t.infos
  }

  /** Whatever navigations began or ended before a renderer is launched for `wc`: the tables agree with the new
      process exactly when the process remembered as dying fits, and then a guest gets its own switches. */
  lemma LaunchAgrees(t: Tables, live: map<GuestId, Record>, p: Processes, wc: WebContents, newId: ProcessId,
                     dying: Option<ProcessId>, windows: set<ProcessId>)
    requires Agree(t, live, p) && newId !in t.infos && newId !in windows
    requires forall id :: id in windows ==> id !in t.infos
    ensures Agree(Launched(t, dying, newId, windows).0, live, p[wc := newId]) <==> DyingFits(t, live, p, wc, dying)
    ensures forall g :: IsGuest(live, g, wc) && DyingFits(t, live, p, wc, dying) ==>
              Launched(t, dying, newId, windows).1 == OfGuest(live[g].info)
  {
    var t', p' := Launched(t, dying, newId, windows).0, p[wc := newId];
    if g :| IsGuest(live, g, wc) {
      assert GuestAgrees(t, live[g], g, p);
      if dying == Some(p[wc]) {
        RekeyAgrees(t, live, p, g, newId);
        forall g' | IsGuest(live, g', wc) ensures g' == g {
          assert g' != g ==> Apart(live[g], live[g'], p);
        }
      } else {
        NobodyMovesIn(live, p, g, newId);
        assert p[wc] in t'.infos && !Occupied(live, p', p[wc]);
      }
    } else {
      if DyingFits(t, live, p, wc, dying) {
        assert forall g :: g in live ==> !IsGuest(live, g, wc);
        OtherProcessAgrees(t, live, p, wc, newId);
      } else {
        NobodyLivesIn(t, live, p, wc, newId);
      }
    }
  }

  /** When a guest moves on, its old process belongs to no guest. */
  lemma NobodyMovesIn(live: map<GuestId, Record>, p: Processes, g: GuestId, newId: ProcessId)
    requires g in live && live[g].at.webContents in p && p[live[g].at.webContents] != newId
    requires forall g' :: g' in live && g' != g ==> Apart(live[g], live[g'], p)
    ensures !Occupied(live, p[live[g].at.webContents := newId], p[live[g].at.webContents])
  {
    var wc := live[g].at.webContents;
    var p', id := p[wc := newId], p[wc];
    forall g' ensures !HasProcess(live, g', p', id) {
      assert g' in live && g' != g ==> Apart(live[g], live[g'], p);
    }
  }

  /** A new process of a web contents that is no guest belongs to no guest. */
  lemma NobodyLivesIn(t: Tables, live: map<GuestId, Record>, p: Processes, wc: WebContents, newId: ProcessId)
    requires Agree(t, live, p) && newId !in t.infos && forall g :: !IsGuest(live, g, wc)
    ensures !Occupied(live, p[wc := newId], newId)
  {
    var p' := p[wc := newId];
    forall g ensures !HasProcess(live, g, p', newId) {
      assert !IsGuest(live, g, wc);
      assert g in live ==> GuestAgrees(t, live[g], g, p);
    }
  }

  /** If a guest's navigation begins between the two halves of another guest's, the first new renderer takes
      the second guest's row, and the tables no longer agree. */
  lemma OverlapLosesRow(t: Tables, live: map<GuestId, Record>, p: Processes, g: GuestId, h: GuestId,
                        newId: ProcessId, windows: set<ProcessId>)
    requires Agree(t, live, p) && newId !in t.infos && newId !in windows
    requires forall id :: id in windows ==> id !in t.infos
    requires g in live && h in live && g != h && live[h].at.webContents in p
    ensures var (wc, dying) := (live[g].at.webContents, p[live[h].at.webContents]);
      && !Agree(Launched(t, Some(dying), newId, windows).0, live, p[wc := newId])
      && Launched(t, Some(dying), newId, windows).1 == OfGuest(live[h].info)
  {
    assert IsGuest(live, g, live[g].at.webContents) && Apart(live[g], live[h], p);
    assert GuestAgrees(t, live[h], h, p);
    LaunchAgrees(t, live, p, live[g].at.webContents, newId, Some(p[live[h].at.webContents]), windows);
  }

  /** Where a guest can be removed, some removal does it. */
  lemma RemovalExists(t: Tables, live: map<GuestId, Record>, p: Processes, g: GuestId) returns (t': Tables)
    requires Agree(t, live, p) && g in live
    ensures g in t.guests && t.guests[g].webContents in p && Removed(t, t', g, p)
  {
    assert GuestAgrees(t, live[g], g, p);
    t' := Tables(t.guests - {g}, t.infos - {p[t.guests[g].webContents]}, t.elements - {live[g].key});
    assert ElementForgotten(t.elements, t'.elements, g);
  }

  class WebViewManager {
    var webContentsEmbedderMap: map<GuestId, Attachment>
    var webviewInfoMap: map<ProcessId, Info>
    var elementInstanceIdToGuestMap: map<ElementKey, GuestId>

    function View(): Tables
      reads this
    {
      Tables(webContentsEmbedderMap, webviewInfoMap, elementInstanceIdToGuestMap)
    }

    constructor ()
      ensures View() == Tables(map[], map[], map[])
    {
      webContentsEmbedderMap, webviewInfoMap, elementInstanceIdToGuestMap := map[], map[], map[];
    }

    /** `p` answers for the render process host of a web contents. */
    method AddGuest(g: GuestId, element: int, embedder: WebContents, webContents: WebContents, info: Info,
                    p: Processes)
      requires webContents in p && embedder in p
      modifies this
      ensures View() == Added(old(View()), g, Attachment(webContents, embedder), p[webContents],
                              ElementKey(p[embedder], element), info)
    {
      webContentsEmbedderMap := webContentsEmbedderMap[g := Attachment(webContents, embedder)];
      webviewInfoMap := webviewInfoMap[p[webContents] := info];
      elementInstanceIdToGuestMap := elementInstanceIdToGuestMap[ElementKey(p[embedder], element) := g];
    }

    method RemoveGuest(g: GuestId, p: Processes)
      requires g in webContentsEmbedderMap ==> webContentsEmbedderMap[g].webContents in p
      modifies this
      ensures Removed(old(View()), View(), g, p)
    {
      if g !in webContentsEmbedderMap {
        return;
      }
      var webContents := webContentsEmbedderMap[g].webContents;
      webContentsEmbedderMap := webContentsEmbedderMap - {g};
      webviewInfoMap := webviewInfoMap - {p[webContents]};
      var rest := elementInstanceIdToGuestMap.Keys;
      while rest != {}
        invariant rest <= elementInstanceIdToGuestMap.Keys
        invariant elementInstanceIdToGuestMap == old(elementInstanceIdToGuestMap)
        invariant forall k :: k in elementInstanceIdToGuestMap && k !in rest ==> elementInstanceIdToGuestMap[k] != g
        decreases rest
      {
        var key :| key in rest;
        if elementInstanceIdToGuestMap[key] == g {
          elementInstanceIdToGuestMap := elementInstanceIdToGuestMap - {key};
          break;
        }
        rest := rest - {key};
      }
    }

    method UpdateGuestProcessID(oldId: ProcessId, newId: ProcessId)
      modifies this`webviewInfoMap
      ensures View() == Rekeyed(old(View()), oldId, newId)
    {
      if oldId !in webviewInfoMap {
        return;
      }
      webviewInfoMap := webviewInfoMap[newId := webviewInfoMap[oldId]];
      webviewInfoMap := webviewInfoMap - {oldId};
    }

    /** A live guest's record is found under its current process. */
    method GetInfo(process: ProcessId, ghost live: map<GuestId, Record>, ghost p: Processes)
      returns (info: Option<Info>)
      ensures info == if process in webviewInfoMap then Some(webviewInfoMap[process]) else None
      ensures Agree(View(), live, p) ==> forall g :: HasProcess(live, g, p, process) ==> info == Some(live[g].info)
    {
      if Agree(View(), live, p) {
        assert forall g :: g in live ==> GuestAgrees(View(), live[g], g, p);
      }
      if process in webviewInfoMap {
        return Some(webviewInfoMap[process]);
      }
      return None;
    }

    /** A live guest is found under its element. */
    method GetGuestByInstanceID(owner: ProcessId, element: int, ghost live: map<GuestId, Record>, ghost p: Processes)
      returns (webContents: Option<WebContents>)
      ensures Agree(View(), live, p) ==> forall g :: g in live && live[g].key == ElementKey(owner, element) ==>
                webContents == Some(live[g].at.webContents)
      ensures Agree(View(), live, p) && webContents.Some? ==>
                exists g :: g in live && live[g].key == ElementKey(owner, element)
    {
      var key := ElementKey(owner, element);
      if Agree(View(), live, p) {
        assert forall g :: g in live ==> GuestAgrees(View(), live[g], g, p);
      }
      if key !in elementInstanceIdToGuestMap {
        return None;
      }
      var g := elementInstanceIdToGuestMap[key];
      if g in webContentsEmbedderMap {
        return Some(webContentsEmbedderMap[g].webContents);
      }
      return None;
    }
  }

  class AtomBrowserClient {
    const manager: WebViewManager
    var dyingRenderProcess: Option<ProcessId>
    var suppressRestart: bool

    constructor (manager: WebViewManager)
      ensures this.manager == manager && dyingRenderProcess == None && !suppressRestart
    {
      this.manager, dyingRenderProcess, suppressRestart := manager, None, false;
    }

    /** Every navigation gets a new renderer, except once after a suppression. */
    method OverrideSiteInstanceForNavigation(current: Option<ProcessId>) returns (restart: bool)
      modifies this
      ensures restart <==> !old(suppressRestart)
      ensures !suppressRestart
      ensures dyingRenderProcess == if restart && current.Some? then current else old(dyingRenderProcess)
    {
      if suppressRestart {
        suppressRestart := false;
        return false;
      }
      if current.Some? {
        dyingRenderProcess := current;
      }
      return true;
    }

    method AppendExtraCommandLineSwitches(isRenderer: bool, child: ProcessId, windows: seq<ProcessId>)
      returns (switches: Switches)
      modifies this`dyingRenderProcess, manager
      ensures !isRenderer ==> switches == NoSwitches && manager.View() == old(manager.View())
                              && dyingRenderProcess == old(dyingRenderProcess)
      ensures isRenderer ==> (manager.View(), switches)
                             == Launched(old(manager.View()), old(dyingRenderProcess), child, set id | id in windows)
      ensures isRenderer ==> dyingRenderProcess == None
    {
      if !isRenderer {
        return NoSwitches;
      }
      var window := if child in windows then Some(child) else None;
      if window.None? && dyingRenderProcess.Some? {
        if dyingRenderProcess.value in windows {
          window := dyingRenderProcess;
        } else {
          manager.UpdateGuestProcessID(dyingRenderProcess.value, child);
        }
      }
      switches := NoSwitches;
      if window.Some? {
        switches := OfWindow(window.value);
      } else if child in manager.webviewInfoMap {
        switches := OfGuest(manager.webviewInfoMap[child]);
      }
      dyingRenderProcess := None;
    }

    /** One navigation up to the launch of its renderer; the new process becomes current only when the page is
        committed. A suppressed navigation keeps its renderer. */
    method Navigate(wc: WebContents, newId: ProcessId, windows: seq<ProcessId>, p: Processes)
      returns (switches: Switches)
      modifies this, manager
      ensures old(suppressRestart) ==>
                && manager.View() == old(manager.View()) && switches == NoSwitches
                && dyingRenderProcess == old(dyingRenderProcess)
      ensures !old(suppressRestart) ==>
                && dyingRenderProcess == None
                && (manager.View(), switches) == Launched(old(manager.View()),
                     if wc in p then Some(p[wc]) else old(dyingRenderProcess), newId, set id | id in windows)
      ensures !suppressRestart
    {
      var restart := OverrideSiteInstanceForNavigation(if wc in p then Some(p[wc]) else None);
      if !restart {
        return NoSwitches;
      }
      switches := AppendExtraCommandLineSwitches(true, newId, windows);
    }
  }
}
