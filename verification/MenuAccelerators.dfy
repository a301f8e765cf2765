/** The accelerator table of a menu tree. */
module MenuAccelerators {
  import opened Wrappers

  type Accelerator = string

  /** `id` tells the menu models of a tree apart. */
  datatype Menu = Menu(id: nat, items: seq<Item>)

  datatype Item = Submenu(menu: Menu) | Command(accelerator: Option<Accelerator>)

  /** A command: its position in its menu model. */
  datatype MenuItem = MenuItem(position: nat, model: nat)

  type Table = map<Accelerator, MenuItem>

  /** The commands that carry an accelerator, in the order of the menus: those of the first `n` items. */
  function Commands(menu: Menu, n: nat): seq<(Accelerator, MenuItem)>
    requires n <= |menu.items|
    decreases menu, n
  {
    if n == 0 then []
    else
      var item := menu.items[n - 1];
      Commands(menu, n - 1) +
      match item
      case Submenu(sub) => Commands(sub, |sub.items|)
      case Command(Some(a)) => [(a, MenuItem(n - 1, menu.id))]
      case Command(None) => []
  }

  /** Entering commands one after the other, later ones over earlier ones. */
  function Entered(before: Table, commands: seq<(Accelerator, MenuItem)>): Table {
    if commands == [] then before
    else
      var last := commands[|commands| - 1];
      Entered(before, commands[..|commands| - 1])[last.0 := last.1]
  }

  lemma {:induction false} EnteredAppend(before: Table, a: seq<(Accelerator, MenuItem)>,
                                         b: seq<(Accelerator, MenuItem)>)
    ensures Entered(before, a + b) == Entered(Entered(before, a), b)
    decreases |b|
  {
    if b == [] {
      assert a + b == a;
    } else {
      EnteredAppend(before, a, b[..|b| - 1]);
      assert (a + b)[..|a + b| - 1] == a + b[..|b| - 1];
    }
  }

  /** Command `i` carries the accelerator and no later one does. */
  ghost predicate LastFor(commands: seq<(Accelerator, MenuItem)>, a: Accelerator, i: nat) {
    i < |commands| && commands[i].0 == a && forall j :: i < j < |commands| ==> commands[j].0 != a
  }

  ghost predicate Unused(commands: seq<(Accelerator, MenuItem)>, a: Accelerator) {
    forall i :: 0 <= i < |commands| ==> commands[i].0 != a
  }

  /** Which command an accelerator ends up with. */
  lemma {:induction false} LastWins(commands: seq<(Accelerator, MenuItem)>, a: Accelerator)
    ensures a !in Entered(map[], commands) <==> Unused(commands, a)
    ensures a in Entered(map[], commands) ==>
              exists i: nat :: LastFor(commands, a, i) && commands[i].1 == Entered(map[], commands)[a]
    decreases |commands|
  {
    if commands == [] {
    } else {
      var last := |commands| - 1;
      LastWins(commands[..last], a);
      if commands[last].0 == a {
        assert LastFor(commands, a, last);
      } else if a in Entered(map[], commands) {
        var i: nat :| LastFor(commands[..last], a, i) && commands[..last][i].1 == Entered(map[], commands[..last])[a];
        assert LastFor(commands, a, i);
      }
    }
  }

  // ---- Which item that is in the menus

  /** Going down the menus by these positions leads to the item, and it carries the accelerator. */
  predicate Leads(menu: Menu, path: seq<nat>, a: Accelerator, item: MenuItem)
    decreases |path|
  {
    && path != [] && path[0] < |menu.items|
    && match menu.items[path[0]]
       case Submenu(sub) => Leads(sub, path[1..], a, item)
       case Command(accelerator) =>
         |path| == 1 && accelerator == Some(a) && item.position == path[0] && item.model == menu.id
  }

  /** The first path comes before the second when the menus are read from top to bottom, submenus in place. */
  predicate Above(p: seq<nat>, q: seq<nat>)
    decreases |p|
  {
    p != [] && q != [] && (p[0] < q[0] || (p[0] == q[0] && Above(p[1..], q[1..])))
  }

  /** Among the first `n` items of the menu, the path leads to the last one that carries the accelerator. */
  ghost predicate IsLast(menu: Menu, n: nat, a: Accelerator, path: seq<nat>, item: MenuItem) {
    && Leads(menu, path, a, item) && path[0] < n
    && forall q, other :: Leads(menu, q, a, other) && q[0] < n ==> q == path || Above(q, path)
  }

  ghost predicate NoneLeads(menu: Menu, n: nat, a: Accelerator) {
    forall q, other :: Leads(menu, q, a, other) ==> q[0] >= n
  }

  /** The item that carries the accelerator last among the commands. */
  function LastOf(commands: seq<(Accelerator, MenuItem)>, a: Accelerator): Option<MenuItem> {
    if commands == [] then None
    else
      var last := commands[|commands| - 1];
      if last.0 == a then Some(last.1) else LastOf(commands[..|commands| - 1], a)
  }

  lemma {:induction false} LastOfAppend(x: seq<(Accelerator, MenuItem)>, y: seq<(Accelerator, MenuItem)>,
                                        a: Accelerator)
    ensures LastOf(x + y, a) == if LastOf(y, a).Some? then LastOf(y, a) else LastOf(x, a)
    decreases |y|
  {
    if y == [] {
      assert x + y == x;
    } else {
      LastOfAppend(x, y[..|y| - 1], a);
      assert (x + y)[..|x + y| - 1] == x + y[..|y| - 1];
    }
  }

  lemma {:induction false} LastOfIsEntered(commands: seq<(Accelerator, MenuItem)>, a: Accelerator)
    ensures a in Entered(map[], commands) <==> LastOf(commands, a).Some?
    ensures a in Entered(map[], commands) ==> LastOf(commands, a) == Some(Entered(map[], commands)[a])
    decreases |commands|
  {
    if commands == [] {
    } else {
      LastOfIsEntered(commands[..|commands| - 1], a);
    }
  }

  /** The last item on the menus is the last among the commands. */
  lemma {:induction false} LastOnMenus(menu: Menu, n: nat, a: Accelerator) returns (path: seq<nat>)
    requires n <= |menu.items|
    ensures match LastOf(Commands(menu, n), a)
            case None => NoneLeads(menu, n, a)
            case Some(item) => IsLast(menu, n, a, path, item)
    decreases menu, n
  {
    path := [];
    if n == 0 {
    } else {
      var before := LastOnMenus(menu, n - 1, a);
      match menu.items[n - 1] {
        case Submenu(sub) =>
          var below := LastOnMenus(sub, |sub.items|, a);
          LastOfAppend(Commands(menu, n - 1), Commands(sub, |sub.items|), a);
          path := LastThroughSubmenu(menu, n, a, sub, below, before);
        case Command(accelerator) =>
          path := LastThroughCommand(menu, n, a, accelerator, before);
      }
    }
  }

  lemma LastThroughCommand(menu: Menu, n: nat, a: Accelerator, accelerator: Option<Accelerator>, before: seq<nat>)
    returns (path: seq<nat>)
    requires 0 < n <= |menu.items| && menu.items[n - 1] == Command(accelerator)
    requires match LastOf(Commands(menu, n - 1), a)
             case None => NoneLeads(menu, n - 1, a)
             case Some(item) => IsLast(menu, n - 1, a, before, item)
    ensures match LastOf(Commands(menu, n), a)
            case None => NoneLeads(menu, n, a)
            case Some(item) => IsLast(menu, n, a, path, item)
  {
    var here := if accelerator.Some? then [(accelerator.value, MenuItem(n - 1, menu.id))] else [];
    assert Commands(menu, n) == Commands(menu, n - 1) + here;
    LastOfAppend(Commands(menu, n - 1), here, a);
    if accelerator == Some(a) {
      path := [n - 1];
      assert here[..0] == [] && LastOf(here, a) == Some(MenuItem(n - 1, menu.id));
    } else {
      path := before;
      assert accelerator.Some? ==> here[..0] == [];
      assert LastOf(here, a) == None;
    }
  }

  lemma LastThroughSubmenu(menu: Menu, n: nat, a: Accelerator, sub: Menu, below: seq<nat>, before: seq<nat>)
    returns (path: seq<nat>)
    requires 0 < n <= |menu.items| && menu.items[n - 1] == Submenu(sub)
    requires match LastOf(Commands(menu, n - 1), a)
             case None => NoneLeads(menu, n - 1, a)
             case Some(item) => IsLast(menu, n - 1, a, before, item)
    requires match LastOf(Commands(sub, |sub.items|), a)
             case None => NoneLeads(sub, |sub.items|, a)
             case Some(item) => IsLast(sub, |sub.items|, a, below, item)
    requires LastOf(Commands(menu, n), a) == if LastOf(Commands(sub, |sub.items|), a).Some?
                                             then LastOf(Commands(sub, |sub.items|), a)
                                             else LastOf(Commands(menu, n - 1), a)
    ensures match LastOf(Commands(menu, n), a)
            case None => NoneLeads(menu, n, a)
            case Some(item) => IsLast(menu, n, a, path, item)
  {
    forall q, other | Leads(menu, q, a, other) && q[0] == n - 1
      ensures Leads(sub, q[1..], a, other) && q[1..] != [] && q[1..][0] < |sub.items| && q == [n - 1] + q[1..]
    {}
    var inSub := LastOf(Commands(sub, |sub.items|), a);
    if inSub.Some? {
      path := [n - 1] + below;
      assert path[1..] == below && Leads(menu, path, a, inSub.value);
    } else {
      path := before;
    }
  }

  class AcceleratorTable {
    var table: Table

    constructor ()
      ensures table == map[]
    {
      table := map[];
    }

    /** The walk over the menu tree that fills the table. */
    method Generate(menu: Menu)
      modifies this
      ensures table == Entered(old(table), Commands(menu, |menu.items|))
      decreases menu
    {
      ghost var before := table;
      for i := 0 to |menu.items|
        invariant table == Entered(before, Commands(menu, i))
      {
        var item := menu.items[i];
        if item.Submenu? {
          Generate(item.menu);
          EnteredAppend(before, Commands(menu, i), Commands(item.menu, |item.menu.items|));
        } else if item.accelerator.Some? {
          table := table[item.accelerator.value := MenuItem(i, menu.id)];
          EnteredAppend(before, Commands(menu, i), [(item.accelerator.value, MenuItem(i, menu.id))]);
        } else {
          EnteredAppend(before, Commands(menu, i), []);
        }
      }
    }

    /** The command to activate, if the accelerator is in the table. */
    method Trigger(accelerator: Accelerator) returns (activated: Option<MenuItem>)
      ensures activated == if accelerator in table then Some(table[accelerator]) else None
    {
      if accelerator in table {
        return Some(table[accelerator]);
      }
      return None;
    }
  }

  /** In a fresh table, an accelerator activates the last command of the tree that carries it, and nothing if
      none does. */
  method Activate(menu: Menu, accelerator: Accelerator) returns (activated: Option<MenuItem>)
    ensures var commands := Commands(menu, |menu.items|);
      match activated
      case None => Unused(commands, accelerator)
      case Some(item) => exists i: nat :: LastFor(commands, accelerator, i) && commands[i].1 == item
    ensures match activated
            case None => NoneLeads(menu, |menu.items|, accelerator)
            case Some(item) => exists path :: IsLast(menu, |menu.items|, accelerator, path, item)
  {
    var t := new AcceleratorTable();
    t.Generate(menu);
    LastWins(Commands(menu, |menu.items|), accelerator);
    LastOfIsEntered(Commands(menu, |menu.items|), accelerator);
    ghost var path := LastOnMenus(menu, |menu.items|, accelerator);
    activated := t.Trigger(accelerator);
  }
}
