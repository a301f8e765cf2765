/** Guests over whole runs: web contents come, guests are added and removed, and navigations begin, launch a new
    renderer, and commit it, all interleaved. */
module GuestRuns {
  import opened Wrappers
  import opened GuestTables

  /** `processes` are the current processes; `pending` the renderers launched but not yet current; `dying` what
      the browser client remembers between the two halves of a navigation. */
  datatype World = World(tables: Tables, live: map<GuestId, Record>, processes: Processes, pending: Processes,
                         dying: Option<ProcessId>, windows: set<WebContents>)

  const EMPTY := World(Tables(map[], map[], map[]), map[], map[], map[], None, {})

  datatype Op =
    | CreateOp(wc: WebContents, id: ProcessId, isWindow: bool)
    | CloseOp(wc: WebContents)              // a window leaves the window list
    | AddOp(g: GuestId, record: Record)
    | RemoveOp(g: GuestId)
    | BeginOp(wc: WebContents)              // OverrideSiteInstanceForNavigation
    | LaunchOp(wc: WebContents, id: ProcessId) // AppendExtraCommandLineSwitches
    | CommitOp(wc: WebContents)
    | AbandonOp(wc: WebContents)            // the launched renderer never becomes current

  /** Where the row of a guest belongs: with the renderer launched last. */
  function Effective(w: World): Processes {
    w.processes + w.pending
  }

  predicate Uses(w: World, wc: WebContents, id: ProcessId) {
    (wc in w.processes && w.processes[wc] == id) || (wc in w.pending && w.pending[wc] == id)
  }

  ghost predicate Fresh(w: World, id: ProcessId) {
    forall wc :: !Uses(w, wc, id)
  }

  function WindowProcesses(w: World): set<ProcessId> {
    set wc | wc in w.windows && wc in w.processes :: w.processes[wc]
  }

  /** No two web contents share a process, a launched renderer is a new one, and no window is a guest. */
  ghost predicate Orderly(w: World) {
    && (forall a, b, id :: Uses(w, a, id) && Uses(w, b, id) ==> a == b)
    && w.pending.Keys <= w.processes.Keys
    && (forall wc :: wc in w.pending ==> w.pending[wc] != w.processes[wc])
    && w.windows <= w.processes.Keys
    && (forall g :: g in w.live ==> w.live[g].at.webContents in w.processes.Keys - w.windows)
  }

  ghost predicate Good(w: World) {
    Orderly(w) && Agree(w.tables, w.live, Effective(w))
  }

  /** What can happen at all: new contents and renderers get fresh processes; a guest gets a fresh id, contents
      that carry no guest and are no window, and an element of its own. */
  ghost predicate Possible(w: World, op: Op) {
    match op
    case CreateOp(wc, id, _) => wc !in w.processes && Fresh(w, id)
    case CloseOp(wc) => wc in w.windows
    case AddOp(g, r) =>
      && g !in w.live && r.at.webContents in w.processes && r.at.webContents !in w.windows
      && (forall g' :: !IsGuest(w.live, g', r.at.webContents))
      && r.key !in w.tables.elements
    case RemoveOp(g) => g in w.live && w.live[g].at.webContents in w.processes
    case BeginOp(wc) => wc in w.processes
    case LaunchOp(wc, id) => wc in w.processes && Fresh(w, id)
    case CommitOp(wc) => wc in w.pending
    case AbandonOp(wc) => wc in w.pending
  }

  /** What the code needs beyond that: a guest is not added or removed between launch and commit, a renderer is
      launched only while the process remembered as dying is the one it replaces, and a guest's is not abandoned. */
  ghost predicate Fits(w: World, op: Op) {
    match op
    case AddOp(g, r) => r.at.webContents !in w.pending
    case RemoveOp(g) => g in w.live ==> w.live[g].at.webContents !in w.pending
    case LaunchOp(wc, id) => DyingFits(w.tables, w.live, Effective(w), wc, w.dying)
    case AbandonOp(wc) => forall g :: !IsGuest(w.live, g, wc)
    case _ => true
  }

  ghost predicate RemovedWorld(w: World, g: GuestId, w': World) {
    && g in w.live && g in w.tables.guests && w.tables.guests[g].webContents in w.processes
    && Removed(w.tables, w'.tables, g, w.processes)
    && w' == w.(tables := w'.tables, live := w.live - {g})
  }

  function AddedWorld(w: World, g: GuestId, r: Record): World
    requires r.at.webContents in w.processes
  {
    w.(tables := Added(w.tables, g, r.at, w.processes[r.at.webContents], r.key, r.info), live := w.live[g := r])
  }

  function CreatedWorld(w: World, wc: WebContents, id: ProcessId, isWindow: bool): World {
    w.(processes := w.processes[wc := id], windows := if isWindow then w.windows + {wc} else w.windows)
  }

  function LaunchedWorld(w: World, wc: WebContents, id: ProcessId): World {
    w.(tables := Launched(w.tables, w.dying, id, WindowProcesses(w)).0, pending := w.pending[wc := id], dying := None)
  }

  function CommittedWorld(w: World, wc: WebContents): World
    requires wc in w.pending
  {
    w.(processes := w.processes[wc := w.pending[wc]], pending := w.pending - {wc})
  }

  /** What the code does. */
  ghost predicate Step(w: World, op: Op, w': World)
    requires Possible(w, op)
  {
    match op
    case CreateOp(wc, id, isWindow) => w' == CreatedWorld(w, wc, id, isWindow)
    case CloseOp(wc) => w' == w.(windows := w.windows - {wc})
    case AddOp(g, r) => w' == AddedWorld(w, g, r)
    case RemoveOp(g) => RemovedWorld(w, g, w')
    case BeginOp(wc) => w' == w.(dying := Some(w.processes[wc]))
    case LaunchOp(wc, id) => w' == LaunchedWorld(w, wc, id)
    case CommitOp(wc) => w' == CommittedWorld(w, wc)
    case AbandonOp(wc) => w' == w.(pending := w.pending - {wc})
  }

  // ---- Order is kept by everything

  lemma OrderlyAfterLaunch(w: World, wc: WebContents, id: ProcessId)
    requires Orderly(w) && Possible(w, LaunchOp(wc, id))
    ensures Orderly(LaunchedWorld(w, wc, id))
  {
    var w' := LaunchedWorld(w, wc, id);
    assert !Uses(w, wc, id);
    forall x, i | Uses(w', x, i) ensures Uses(w, x, i) || (x == wc && i == id) {}
  }

  lemma OrderlyAfterCommit(w: World, wc: WebContents)
    requires Orderly(w) && wc in w.pending
    ensures Orderly(CommittedWorld(w, wc))
  {
    var w' := CommittedWorld(w, wc);
    forall x, i | Uses(w', x, i) ensures Uses(w, x, i) {}
  }

  lemma OrderlyAfterCreate(w: World, wc: WebContents, id: ProcessId, isWindow: bool)
    requires Orderly(w) && Possible(w, CreateOp(wc, id, isWindow))
    ensures Orderly(CreatedWorld(w, wc, id, isWindow))
  {
    var w' := CreatedWorld(w, wc, id, isWindow);
    forall x, i | Uses(w', x, i) ensures Uses(w, x, i) || (x == wc && i == id) {}
  }

  lemma OrderlyAfterOther(w: World, w': World)
    requires Orderly(w) && w'.processes == w.processes && w'.windows <= w.windows
    requires w'.pending.Keys <= w.pending.Keys && forall wc :: wc in w'.pending ==> w'.pending[wc] == w.pending[wc]
    requires forall g :: g in w'.live ==> w'.live[g].at.webContents in w.processes.Keys - w'.windows
    ensures Orderly(w')
  {
    forall x, i | Uses(w', x, i) ensures Uses(w, x, i) {}
  }

  lemma StepKeepsOrder(w: World, op: Op, w': World)
    requires Orderly(w) && Possible(w, op) && Step(w, op, w')
    ensures Orderly(w')
  {
    match op
    case CreateOp(wc, id, isWindow) => OrderlyAfterCreate(w, wc, id, isWindow);
    case LaunchOp(wc, id) => OrderlyAfterLaunch(w, wc, id);
    case CommitOp(wc) => OrderlyAfterCommit(w, wc);
    case _ => OrderlyAfterOther(w, w');
  }

  // ---- Agreement is kept exactly when the operation fits

  lemma FreshHasNoRow(w: World, id: ProcessId)
    requires Good(w) && Fresh(w, id)
    ensures id !in w.tables.infos
  {
    if id in w.tables.infos {
      assert Occupied(w.live, Effective(w), id);
      var g :| HasProcess(w.live, g, Effective(w), id);
      assert Uses(w, w.live[g].at.webContents, id);
    }
  }

  /** A row under a process of some web contents is that of the guest there. */
  lemma RowIsOfGuest(w: World, wc: WebContents, id: ProcessId) returns (g: GuestId)
    requires Good(w) && Uses(w, wc, id) && id in w.tables.infos
    ensures IsGuest(w.live, g, wc) && wc in Effective(w) && Effective(w)[wc] == id
  {
    assert Occupied(w.live, Effective(w), id);
    g :| HasProcess(w.live, g, Effective(w), id);
    assert Uses(w, w.live[g].at.webContents, id);
  }

  lemma CreateAgrees(w: World, wc: WebContents, id: ProcessId, isWindow: bool)
    requires Good(w) && Possible(w, CreateOp(wc, id, isWindow))
    ensures Good(CreatedWorld(w, wc, id, isWindow))
  {
    OrderlyAfterCreate(w, wc, id, isWindow);
    FreshHasNoRow(w, id);
    OtherProcessAgrees(w.tables, w.live, Effective(w), wc, id);
    assert Effective(CreatedWorld(w, wc, id, isWindow)) == Effective(w)[wc := id];
  }

  lemma AddAgreesExactly(w: World, g: GuestId, r: Record)
    requires Good(w) && Possible(w, AddOp(g, r))
    ensures var w' := AddedWorld(w, g, r);
      Agree(w'.tables, w'.live, Effective(w')) <==> r.at.webContents !in w.pending
  {
    var wc, e := r.at.webContents, Effective(w);
    if e[wc] in w.tables.infos {
      assert Uses(w, wc, e[wc]);
      var h := RowIsOfGuest(w, wc, e[wc]);
    }
    if wc !in w.pending {
      AddAgrees(w.tables, w.live, e, g, r);
    } else {
      assert e[wc] !in AddedWorld(w, g, r).tables.infos;
      assert !GuestAgrees(AddedWorld(w, g, r).tables, r, g, e);
    }
  }

  lemma RemoveAgreesExactly(w: World, g: GuestId, w': World)
    requires Good(w) && RemovedWorld(w, g, w')
    ensures Agree(w'.tables, w'.live, Effective(w')) <==> w.live[g].at.webContents !in w.pending
  {
    var wc, e := w.live[g].at.webContents, Effective(w);
    assert GuestAgrees(w.tables, w.live[g], g, e);
    if wc !in w.pending {
      RemoveAgrees(w.tables, w'.tables, w.live, e, g);
    } else {
      assert e[wc] in w'.tables.infos;
      forall h ensures !HasProcess(w'.live, h, e, e[wc]) {
        assert h in w.live && h != g ==> Apart(w.live[h], w.live[g], e);
      }
      assert !Occupied(w'.live, e, e[wc]);
    }
  }

  lemma LaunchAgreesExactly(w: World, wc: WebContents, id: ProcessId)
    requires Good(w) && Possible(w, LaunchOp(wc, id))
    ensures var w' := LaunchedWorld(w, wc, id);
      Agree(w'.tables, w'.live, Effective(w')) <==> DyingFits(w.tables, w.live, Effective(w), wc, w.dying)
    ensures id !in WindowProcesses(w) && forall i :: i in WindowProcesses(w) ==> i !in w.tables.infos
  {
    FreshHasNoRow(w, id);
    forall i | i in WindowProcesses(w) ensures i !in w.tables.infos && i != id {
      var x :| x in w.windows && x in w.processes && w.processes[x] == i;
      assert Uses(w, x, i);
      if i in w.tables.infos {
        var g := RowIsOfGuest(w, x, i);
      }
    }
    LaunchAgrees(w.tables, w.live, Effective(w), wc, id, w.dying, WindowProcesses(w));
    assert Effective(LaunchedWorld(w, wc, id)) == Effective(w)[wc := id];
  }

  lemma AbandonAgreesExactly(w: World, wc: WebContents)
    requires Good(w) && wc in w.pending
    ensures Agree(w.tables, w.live, Effective(w.(pending := w.pending - {wc})))
       <==> forall g :: !IsGuest(w.live, g, wc)
  {
    var e, e' := Effective(w), Effective(w.(pending := w.pending - {wc}));
    var id := w.processes[wc];
    assert e' == e[wc := id] && Uses(w, wc, id);
    if id in w.tables.infos {
      var g := RowIsOfGuest(w, wc, id);
    }
    if g :| IsGuest(w.live, g, wc) {
      assert !GuestAgrees(w.tables, w.live[g], g, e');
    } else {
      assert forall h :: h in w.live ==> !IsGuest(w.live, h, wc);
      OtherProcessAgrees(w.tables, w.live, e, wc, id);
    }
  }

  /** Whatever the interleaving so far, an operation keeps the tables in agreement exactly when it fits. */
  lemma StepKeepsAgreementExactly(w: World, op: Op, w': World)
    requires Good(w) && Possible(w, op) && Step(w, op, w')
    ensures Good(w') <==> Fits(w, op)
  {
    StepKeepsOrder(w, op, w');
    match op
    case CreateOp(wc, id, isWindow) => CreateAgrees(w, wc, id, isWindow);
    case AddOp(g, r) => AddAgreesExactly(w, g, r);
    case RemoveOp(g) => RemoveAgreesExactly(w, g, w');
    case LaunchOp(wc, id) => LaunchAgreesExactly(w, wc, id);
    case CommitOp(wc) => assert Effective(w') == Effective(w);
    case AbandonOp(wc) => AbandonAgreesExactly(w, wc);
    case _ => assert Effective(w') == Effective(w);
  }

  /** Removed between launch and commit, a guest leaves the row of its new renderer behind. */
  lemma RemovalInFlightLeavesRow(w: World, g: GuestId, w': World)
    requires Good(w) && RemovedWorld(w, g, w') && w.live[g].at.webContents in w.pending
    ensures g !in w'.tables.guests
    ensures var id := w.pending[w.live[g].at.webContents];
      id in w'.tables.infos && w'.tables.infos[id] == w.live[g].info
  {
    assert GuestAgrees(w.tables, w.live[g], g, Effective(w));
  }

  // ---- Runs

  ghost predicate Next(w: World, op: Op, w': World) {
    Possible(w, op) && Fits(w, op) && Step(w, op, w')
  }

  ghost predicate Run(w: World, ops: seq<Op>, w': World)
    decreases |ops|
  {
    if ops == [] then w' == w
    else exists m :: Next(w, ops[0], m) && Run(m, ops[1..], w')
  }

  lemma EmptyIsGood()
    ensures Good(EMPTY)
  {}

  /** After any fitting sequence of operations, each guest's record is found under its process and its element
      leads to it, and nothing else is in the tables. */
  lemma {:induction false} RunsAgree(w: World, ops: seq<Op>, w': World)
    requires Good(w) && Run(w, ops, w')
    ensures Good(w')
    ensures w'.pending == map[] ==> Agree(w'.tables, w'.live, w'.processes)
    decreases |ops|
  {
    if ops == [] {
      assert w'.pending == map[] ==> Effective(w') == w'.processes;
    } else {
      var m :| Next(w, ops[0], m) && Run(m, ops[1..], w');
      StepKeepsAgreementExactly(w, ops[0], m);
      RunsAgree(m, ops[1..], w');
    }
  }

  lemma NextIsDetermined(w: World, op: Op, a: World, b: World)
    requires Good(w) && Next(w, op, a) && Next(w, op, b)
    ensures a == b
  {
    StepKeepsAgreementExactly(w, op, a);
    StepKeepsAgreementExactly(w, op, b);
    if op.RemoveOp? {
      TablesAreDetermined(a.tables, b.tables, a.live, Effective(a));
    }
  }

  /** A sequence of operations leads to one world only. */
  lemma {:induction false} RunIsDetermined(w: World, ops: seq<Op>, a: World, b: World)
    requires Good(w) && Run(w, ops, a) && Run(w, ops, b)
    ensures a == b
    decreases |ops|
  {
    if ops == [] {
    } else {
      var m :| Next(w, ops[0], m) && Run(m, ops[1..], a);
      var n :| Next(w, ops[0], n) && Run(n, ops[1..], b);
      NextIsDetermined(w, ops[0], m, n);
      StepKeepsAgreementExactly(w, ops[0], m);
      RunIsDetermined(m, ops[1..], a, b);
    }
  }

  /** A swap that nothing interrupts goes through: the new process is current in the end, and a guest's new
      renderer was started with the guest's own switches. */
  lemma SwapGoesThrough(w: World, wc: WebContents, id: ProcessId) returns (w': World)
    requires Good(w) && wc in w.processes && wc !in w.pending && Fresh(w, id)
    ensures Run(w, [BeginOp(wc), LaunchOp(wc, id), CommitOp(wc)], w')
    ensures w'.processes == w.processes[wc := id] && w'.pending == w.pending && w'.live == w.live
    ensures forall g :: IsGuest(w.live, g, wc) ==>
              Launched(w.tables, Some(w.processes[wc]), id, WindowProcesses(w)).1 == OfGuest(w.live[g].info)
  {
    var begun := BeginThenLaunch(w, wc, id);
    var launched := LaunchedWorld(begun, wc, id);
    w' := CommittedWorld(launched, wc);
    assert w'.pending == w.pending;
    RunOfThree(w, BeginOp(wc), begun, LaunchOp(wc, id), launched, CommitOp(wc), w');
  }

  lemma BeginThenLaunch(w: World, wc: WebContents, id: ProcessId) returns (begun: World)
    requires Good(w) && wc in w.processes && wc !in w.pending && Fresh(w, id)
    ensures begun == w.(dying := Some(w.processes[wc])) && Next(w, BeginOp(wc), begun)
    ensures Next(begun, LaunchOp(wc, id), LaunchedWorld(begun, wc, id))
    ensures forall g :: IsGuest(w.live, g, wc) ==>
              Launched(w.tables, Some(w.processes[wc]), id, WindowProcesses(w)).1 == OfGuest(w.live[g].info)
  {
    begun := w.(dying := Some(w.processes[wc]));
    assert Effective(begun) == Effective(w) && WindowProcesses(begun) == WindowProcesses(w);
    forall x ensures !Uses(begun, x, id) {
      assert !Uses(w, x, id);
    }
    BegunFits(w, wc);
    FreshHasNoRow(w, id);
    LaunchAgreesExactly(w, wc, id);
    LaunchAgrees(w.tables, w.live, Effective(w), wc, id, begun.dying, WindowProcesses(w));
  }

  /** A window that is navigated gets a renderer with its own switches, and no table changes. */
  lemma WindowKeepsSwitches(w: World, wc: WebContents, id: ProcessId)
    requires Good(w) && wc in w.windows && Fresh(w, id)
    ensures Launched(w.tables, Some(w.processes[wc]), id, WindowProcesses(w))
         == (w.tables, OfWindow(w.processes[wc]))
  {
    LaunchAgreesExactly(w, wc, id);
    SwitchesOfWindow(w.tables, Some(w.processes[wc]), id, WindowProcesses(w));
  }

  lemma BegunFits(w: World, wc: WebContents)
    requires Good(w) && wc in w.processes && wc !in w.pending
    ensures DyingFits(w.tables, w.live, Effective(w), wc, Some(w.processes[wc]))
  {
    assert Uses(w, wc, w.processes[wc]);
    if w.processes[wc] in w.tables.infos {
      var g := RowIsOfGuest(w, wc, w.processes[wc]);
    }
  }

  lemma RunOfThree(w0: World, a: Op, w1: World, b: Op, w2: World, c: Op, w3: World)
    requires Next(w0, a, w1) && Next(w1, b, w2) && Next(w2, c, w3)
    ensures Run(w0, [a, b, c], w3)
  {
    assert Run(w3, [], w3);
    assert [c][1..] == [] && Run(w2, [c], w3);
    assert [b, c][1..] == [c] && Run(w1, [b, c], w3);
    assert [a, b, c][1..] == [b, c];
  }

  // ---- Remove undoes add

  /** `m'` is the world `m` as if the guest had never been added. */
  ghost predicate WithoutGuest(m: World, m': World, g: GuestId) {
    && Good(m) && Good(m')
    && g in m.live && m' == m.(tables := m'.tables, live := m.live - {g})
  }

  /** Without the guest there are no other rows and elements than with it, and none under its process. */
  lemma TablesWithout(m: World, m': World, g: GuestId)
    requires WithoutGuest(m, m', g)
    ensures m'.tables.elements.Keys <= m.tables.elements.Keys
    ensures m'.tables.infos.Keys <= m.tables.infos.Keys
    ensures Effective(m)[m.live[g].at.webContents] !in m'.tables.infos
  {
    var e := Effective(m);
    forall k | k in m'.tables.elements ensures k in m.tables.elements {
      var h := m'.tables.elements[k];
      assert h in m'.live && h in m.live && m'.live[h].key == k;
      assert GuestAgrees(m.tables, m.live[h], h, e);
    }
    forall id | id in m'.tables.infos ensures id in m.tables.infos && id != e[m.live[g].at.webContents] {
      assert Occupied(m'.live, e, id);
      var h :| HasProcess(m'.live, h, e, id);
      assert GuestAgrees(m.tables, m.live[h], h, e) && Apart(m.live[h], m.live[g], e);
    }
  }

  lemma DyingFitsWithout(m: World, m': World, g: GuestId, wc: WebContents)
    requires WithoutGuest(m, m', g) && DyingFits(m.tables, m.live, Effective(m), wc, m.dying)
    ensures DyingFits(m'.tables, m'.live, Effective(m'), wc, m'.dying)
  {
    TablesWithout(m, m', g);
    if h :| IsGuest(m'.live, h, wc) {
      assert IsGuest(m.live, h, wc);
    } else if h :| IsGuest(m.live, h, wc) {
      assert h != g ==> IsGuest(m'.live, h, wc);
    }
  }

  lemma PossibleWithout(m: World, op: Op, m': World, g: GuestId)
    requires WithoutGuest(m, m', g) && Possible(m, op) && Fits(m, op) && op != RemoveOp(g)
    ensures Possible(m', op) && Fits(m', op)
  {
    TablesWithout(m, m', g);
    match op
    case LaunchOp(wc, id) =>
      DyingFitsWithout(m, m', g, wc);
      assert forall x :: Uses(m', x, id) ==> Uses(m, x, id);
    case CreateOp(wc, id, _) => assert forall x :: Uses(m', x, id) ==> Uses(m, x, id);
    case AddOp(h, r) =>
      assert forall x :: IsGuest(m'.live, x, r.at.webContents) ==> IsGuest(m.live, x, r.at.webContents);
    case AbandonOp(wc) => assert forall x :: IsGuest(m'.live, x, wc) ==> IsGuest(m.live, x, wc);
    case _ =>
  }

  lemma RemovedWithout(m: World, h: GuestId, m': World, g: GuestId) returns (n': World)
    requires Agree(m'.tables, m'.live, Effective(m')) && m'.live == m.live - {g} && m'.pending == m.pending
    requires h in m.live && h != g && m.live[h].at.webContents !in m.pending
    ensures RemovedWorld(m', h, n') && n' == m'.(tables := n'.tables, live := m.live - {h} - {g})
  {
    var t' := RemovalExists(m'.tables, m'.live, Effective(m'), h);
    n' := m'.(tables := t', live := m'.live - {h});
    assert GuestAgrees(m'.tables, m'.live[h], h, Effective(m'));
    assert m.live - {g} - {h} == m.live - {h} - {g};
  }

  /** An operation on no guest, or on another one being added, does the same beside the guest and without it. */
  lemma StepBeside(m: World, op: Op, n: World, m': World, g: GuestId) returns (n': World)
    requires g in m.live && m' == m.(tables := m'.tables, live := m.live - {g}) && !op.RemoveOp?
    requires Possible(m, op) && Possible(m', op) && Step(m, op, n)
    ensures Step(m', op, n') && g in n.live && n' == n.(tables := n'.tables, live := n.live - {g})
  {
    match op
    case CreateOp(wc, id, isWindow) => n' := CreatedWorld(m', wc, id, isWindow);
    case CloseOp(wc) => n' := m'.(windows := m'.windows - {wc});
    case AddOp(h, r) =>
      n' := AddedWorld(m', h, r);
      assert m'.live[h := r] == m.live[h := r] - {g};
    case BeginOp(wc) => n' := m'.(dying := Some(m'.processes[wc]));
    case LaunchOp(wc, id) => n' := LaunchedWorld(m', wc, id);
    case CommitOp(wc) => n' := CommittedWorld(m', wc);
    case AbandonOp(wc) => n' := m'.(pending := m'.pending - {wc});
  }

  /** What can happen beside the guest can happen without it. */
  lemma StepWithout(m: World, op: Op, n: World, m': World, g: GuestId) returns (n': World)
    requires WithoutGuest(m, m', g) && Next(m, op, n) && op != RemoveOp(g)
    ensures Next(m', op, n') && WithoutGuest(n, n', g)
  {
    PossibleWithout(m, op, m', g);
    if op.RemoveOp? {
      n' := RemovedWithout(m, op.g, m', g);
    } else {
      n' := StepBeside(m, op, n, m', g);
    }
    StepKeepsAgreementExactly(m, op, n);
    StepKeepsAgreementExactly(m', op, n');
  }

  lemma PutAndTake(live: map<GuestId, Record>, g: GuestId, r: Record)
    requires g !in live
    ensures live[g := r] - {g} == live
  {}

  lemma {:induction false} RemoveUndoesRun(m: World, m': World, g: GuestId, ops: seq<Op>, n: World, after: World)
    requires WithoutGuest(m, m', g) && Run(m, ops, n) && RemoveOp(g) !in ops && Next(n, RemoveOp(g), after)
    ensures Run(m', ops, after)
    decreases |ops|
  {
    if ops == [] {
      StepKeepsAgreementExactly(n, RemoveOp(g), after);
      TablesAreDetermined(after.tables, m'.tables, m'.live, Effective(m'));
    } else {
      var k :| Next(m, ops[0], k) && Run(k, ops[1..], n);
      var k' := StepWithout(m, ops[0], k, m', g);
      RemoveUndoesRun(k, k', g, ops[1..], n, after);
    }
  }

  /** Removing a guest undoes adding it: whatever came in between, the world is the one that the other operations
      alone would have led to. Navigations of any web contents may be under way at any point, except that the
      guest itself is removed when its newest renderer is current. */
  lemma RemoveUndoesAdd(w: World, g: GuestId, r: Record, added: World, ops: seq<Op>, before: World, after: World)
    requires Good(w) && Next(w, AddOp(g, r), added)
    requires Run(added, ops, before) && RemoveOp(g) !in ops
    requires Next(before, RemoveOp(g), after)
    ensures Run(w, ops, after)
  {
    StepKeepsAgreementExactly(w, AddOp(g, r), added);
    PutAndTake(w.live, g, r);
    RemoveUndoesRun(added, w, g, ops, before, after);
  }
}
