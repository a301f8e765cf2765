/** Path lookup in the header of an asar archive, through linked directories. */
module AsarLookup {
  import opened Wrappers
  import opened BaseValues

  /** A header node: a dictionary with "files", or "link", or file attributes. */
  type Node = map<string, Value>

  const SEPARATOR := '/'

  function LinkOf(d: Node): Option<string> {
    if "link" in d && d["link"].String? then Some(d["link"].s) else None
  }

  function Entry(d: Node, name: string): Lookup {
    if name in d && d[name].Dictionary? then Found(d[name].entries) else Missing
  }

  /** What files offer under a name. */
  function Offer(files: Lookup, name: string): Lookup {
    if files.Found? then Entry(files.node, name) else files
  }

  /** The position of the first separator, or the length of the path. */
  function FirstSeparator(path: string): (i: nat)
    ensures i <= |path| && SEPARATOR !in path[..i] && (i < |path| ==> path[i] == SEPARATOR)
  {
    if path == "" || path[0] == SEPARATOR then 0 else 1 + FirstSeparator(path[1..])
  }

  /** The components of a path. */
  function Split(path: string): (names: seq<string>)
    ensures names != []
    decreases |path|, 1
  {
    SplitFrom(path, FirstSeparator(path))
  }

  function SplitFrom(path: string, i: nat): (names: seq<string>)
    requires i <= |path|
    ensures names != []
    decreases |path|, 0
  {
    if i == |path| then [path] else [path[..i]] + Split(path[i + 1..])
  }

  /** `Diverges`: the links followed form a chain longer than allowed. */
  datatype Lookup = Found(node: Node) | Missing | Diverges

  /** The meaning of lookup, as a fold over components, following at most `fuel` nested links. */
  function Resolve(fuel: nat, root: Node, path: string): Lookup
    decreases fuel, 2, 0
  {
    if path == "" then Found(root) else Walk(fuel, root, root, Split(path))
  }

  function Walk(fuel: nat, root: Node, dir: Node, names: seq<string>): Lookup
    decreases fuel, 1, |names|
  {
    if names == [] then Found(dir)
    else
      var child := Child(fuel, root, names[0], dir);
      if child.Found? then Walk(fuel, root, child.node, names[1..]) else child
  }

  /** The files of a directory. A link is followed once: if it names another link, that one is not followed. */
  function Files(fuel: nat, root: Node, dir: Node): Lookup
    decreases fuel, 0, 0
  {
    match LinkOf(dir)
    case None => Entry(dir, "files")
    case Some(link) =>
      if fuel == 0 then Diverges
      else
        var target := Resolve(fuel - 1, root, link);
        if target.Found? then Entry(target.node, "files") else target
  }

  function Child(fuel: nat, root: Node, name: string, dir: Node): Lookup
    decreases fuel, 0, 1
  {
    Offer(Files(fuel, root, dir), name)
  }

  // ---- Fuel

  /** More fuel never changes an answer. */
  lemma {:induction false} MoreFuel(f: nat, f': nat, root: Node, path: string)
    requires f <= f' && !Resolve(f, root, path).Diverges?
    ensures Resolve(f', root, path) == Resolve(f, root, path)
    decreases f, 2, 0
  {
    if path == "" {
    } else {
      MoreFuelWalk(f, f', root, root, Split(path));
    }
  }

  lemma {:induction false} MoreFuelWalk(f: nat, f': nat, root: Node, dir: Node, names: seq<string>)
    requires f <= f' && !Walk(f, root, dir, names).Diverges?
    ensures Walk(f', root, dir, names) == Walk(f, root, dir, names)
    decreases f, 1, |names|
  {
    if names == [] {
    } else {
      var child := Child(f, root, names[0], dir);
      assert !child.Diverges?;
      MoreFuelFiles(f, f', root, dir);
      if child.Found? {
        MoreFuelWalk(f, f', root, child.node, names[1..]);
      }
    }
  }

  lemma {:induction false} MoreFuelFiles(f: nat, f': nat, root: Node, dir: Node)
    requires f <= f' && !Files(f, root, dir).Diverges?
    ensures Files(f', root, dir) == Files(f, root, dir)
    decreases f, 0, 0
  {
    if LinkOf(dir).Some? {
      MoreFuel(f - 1, f' - 1, root, LinkOf(dir).value);
    }
  }

  /** What looking up `path` gives; `Diverges` when the source would recurse forever. */
  ghost function NodeAt(root: Node, path: string): Lookup {
    if f :| !Resolve(f, root, path).Diverges? then Resolve(f, root, path) else Diverges
  }

  /** What descending from `dir` through `names` gives. */
  ghost function NodeBelow(root: Node, dir: Node, names: seq<string>): Lookup {
    if f :| !Walk(f, root, dir, names).Diverges? then Walk(f, root, dir, names) else Diverges
  }

  /** `f` is enough fuel for the answer, if there is one. */
  lemma Settles(root: Node, path: string) returns (f: nat)
    ensures forall f' :: f' >= f ==> Resolve(f', root, path) == NodeAt(root, path)
  {
    f := 0;
    if f0 :| !Resolve(f0, root, path).Diverges? && Resolve(f0, root, path) == NodeAt(root, path) {
      f := f0;
      forall f' | f' >= f ensures Resolve(f', root, path) == NodeAt(root, path) {
        MoreFuel(f, f', root, path);
      }
    }
  }

  lemma SettlesBelow(root: Node, dir: Node, names: seq<string>) returns (f: nat)
    ensures forall f' :: f' >= f ==> Walk(f', root, dir, names) == NodeBelow(root, dir, names)
  {
    f := 0;
    if f0 :| !Walk(f0, root, dir, names).Diverges? && Walk(f0, root, dir, names) == NodeBelow(root, dir, names) {
      f := f0;
      forall f' | f' >= f ensures Walk(f', root, dir, names) == NodeBelow(root, dir, names) {
        MoreFuelWalk(f, f', root, dir, names);
      }
    }
  }

  // ---- Paths and components

  lemma {:induction false} FirstSeparatorOfJoin(p: string, q: string)
    ensures FirstSeparator(p + [SEPARATOR] + q) == FirstSeparator(p)
  {
    var path := p + [SEPARATOR] + q;
    if p != "" && p[0] != SEPARATOR {
      FirstSeparatorOfJoin(p[1..], q);
      assert path[1..] == p[1..] + [SEPARATOR] + q;
    }
  }

  lemma SplitAt(path: string, i: nat)
    requires i < |path| && FirstSeparator(path) == i
    ensures Split(path) == [path[..i]] + Split(path[i + 1..])
  {}

  lemma SplitWhole(path: string)
    requires FirstSeparator(path) == |path|
    ensures Split(path) == [path]
  {}

  lemma JoinSlices(p: string, q: string, i: nat)
    requires i < |p|
    ensures (p + [SEPARATOR] + q)[..i] == p[..i]
    ensures (p + [SEPARATOR] + q)[i + 1..] == p[i + 1..] + [SEPARATOR] + q
  {}

  lemma Reassociate(name: string, names: seq<string>, x: seq<string>, y: seq<string>)
    requires names == [name] + x
    ensures [name] + (x + y) == names + y
  {}

  lemma {:induction false} SplitJoin(p: string, q: string)
    ensures Split(p + [SEPARATOR] + q) == Split(p) + Split(q)
    decreases |p|
  {
    var i := FirstSeparator(p);
    if i == |p| {
      var path := p + [SEPARATOR] + q;
      FirstSeparatorOfJoin(p, q);
      SplitAt(path, i);
      SplitWhole(p);
      assert path[..i] == p && path[i + 1..] == q;
    } else {
      SplitJoin(p[i + 1..], q);
      JoinSlices(p, q, i);
      FirstSeparatorOfJoin(p, q);
      SplitAt(p + [SEPARATOR] + q, i);
      SplitAt(p, i);
      Reassociate(p[..i], Split(p), Split(p[i + 1..]), Split(q));
    }
  }

  lemma {:induction false} WalkAppend(f: nat, root: Node, dir: Node, a: seq<string>, b: seq<string>)
    ensures Walk(f, root, dir, a + b)
         == var w := Walk(f, root, dir, a); if w.Found? then Walk(f, root, w.node, b) else w
    decreases |a|
  {
    if a == [] {
      assert a + b == b;
    } else {
      var child := Child(f, root, a[0], dir);
      assert (a + b)[1..] == a[1..] + b;
      if child.Found? {
        WalkAppend(f, root, child.node, a[1..], b);
      }
    }
  }

  // ---- Laws of lookup

  lemma ResolveJoin(f: nat, root: Node, p: string, q: string)
    requires p != ""
    ensures Resolve(f, root, p + [SEPARATOR] + q)
         == var at := Resolve(f, root, p); if at.Found? then Walk(f, root, at.node, Split(q)) else at
  {
    SplitJoin(p, q);
    WalkAppend(f, root, root, Split(p), Split(q));
  }

  /** Looking up `p/q` is descending through the components of `q` from the node of `p`. */
  lemma LookupComposes(root: Node, p: string, q: string)
    requires p != ""
    ensures NodeAt(root, p + [SEPARATOR] + q)
         == var at := NodeAt(root, p); if at.Found? then NodeBelow(root, at.node, Split(q)) else at
  {
    var path, at := p + [SEPARATOR] + q, NodeAt(root, p);
    var f1 := Settles(root, p);
    var f2 := Settles(root, path);
    var f3 := SettlesBelow(root, if at.Found? then at.node else root, Split(q));
    ResolveJoin(f1 + f2 + f3, root, p, q);
    assert Resolve(f1 + f2 + f3, root, path) == NodeAt(root, path);
    assert Resolve(f1 + f2 + f3, root, p) == at;
  }

  lemma SplitHead(path: string)
    ensures SEPARATOR !in Split(path)[0]
  {
    var i := FirstSeparator(path);
    if i == |path| {
      assert path[..i] == path;
      SplitWhole(path);
    } else {
      SplitAt(path, i);
    }
  }

  /** A name without separators is its own only component. */
  lemma SplitName(name: string)
    requires SEPARATOR !in name
    ensures Split(name) == [name]
  {}

  // ---- Files

  /** The files of a directory, however long the links take. */
  ghost function FilesOf(root: Node, dir: Node): Lookup {
    match LinkOf(dir)
    case None => Entry(dir, "files")
    case Some(l) =>
      var target := NodeAt(root, l);
      if target.Found? then Entry(target.node, "files") else target
  }

  /** The files under a path: what Readdir lists. */
  ghost function FilesAt(root: Node, path: string): Lookup {
    var at := NodeAt(root, path);
    if at.Found? then FilesOf(root, at.node) else at
  }

  lemma SettlesFiles(root: Node, dir: Node) returns (f: nat)
    ensures forall f' :: f' >= f ==> Files(f', root, dir) == FilesOf(root, dir)
  {
    f := 0;
    if LinkOf(dir).Some? {
      var l := LinkOf(dir).value;
      var g := Settles(root, l);
      f := g + 1;
      forall f' | f' >= f ensures Files(f', root, dir) == FilesOf(root, dir) {
        assert Resolve(f' - 1, root, l) == NodeAt(root, l);
      }
    }
  }

  lemma BelowNothing(root: Node, dir: Node)
    ensures NodeBelow(root, dir, []) == Found(dir)
  {
    assert Walk(0, root, dir, []) == Found(dir);
  }

  lemma BelowFirst(root: Node, dir: Node, names: seq<string>)
    requires names != []
    ensures NodeBelow(root, dir, names)
         == var child := Offer(FilesOf(root, dir), names[0]);
            if child.Found? then NodeBelow(root, child.node, names[1..]) else child
  {
    var child := Offer(FilesOf(root, dir), names[0]);
    var f1 := SettlesBelow(root, dir, names);
    var f2 := SettlesFiles(root, dir);
    var f3 := SettlesBelow(root, if child.Found? then child.node else root, names[1..]);
    var f := f1 + f2 + f3;
    assert Walk(f, root, dir, names) == NodeBelow(root, dir, names);
    assert Child(f, root, names[0], dir) == child;
  }

  lemma BelowName(root: Node, dir: Node, name: string)
    ensures NodeBelow(root, dir, [name]) == Offer(FilesOf(root, dir), name)
  {
    BelowFirst(root, dir, [name]);
    assert [name][1..] == [];
    var child := Offer(FilesOf(root, dir), name);
    if child.Found? {
      BelowNothing(root, child.node);
    }
  }

  lemma LookupUnder(root: Node, p: string, name: string)
    requires p != "" && SEPARATOR !in name
    ensures NodeAt(root, p + [SEPARATOR] + name) == Offer(FilesAt(root, p), name)
  {
    LookupComposes(root, p, name);
    SplitName(name);
    if NodeAt(root, p).Found? {
      BelowName(root, NodeAt(root, p).node, name);
    }
  }

  /** The empty path names the archive's root. */
  lemma LookupInRoot(root: Node, name: string)
    requires name != "" && SEPARATOR !in name
    ensures NodeAt(root, "") == Found(root)
    ensures NodeAt(root, name) == Offer(FilesAt(root, ""), name)
  {
    var f0 := Settles(root, "");
    assert Resolve(f0, root, "") == NodeAt(root, "");
    SplitName(name);
    BelowName(root, root, name);
    var f1 := Settles(root, name);
    var f2 := SettlesBelow(root, root, [name]);
    assert Resolve(f1 + f2, root, name) == Walk(f1 + f2, root, root, [name]);
  }

  /** The path of a name in a directory; the archive's root is the empty path. */
  function Below(path: string, name: string): string {
    if path == "" then name else path + [SEPARATOR] + name
  }

  /** In any directory and in the archive's root, a listed name can be looked up exactly when it is a node, and
      nothing else can be. (The empty name in the root gives the empty path, which is the root itself.) */
  lemma ListingIsLookup(root: Node, p: string, name: string)
    requires SEPARATOR !in name && (p != "" || name != "")
    ensures NodeAt(root, Below(p, name)) == Offer(FilesAt(root, p), name)
  {
    if p == "" {
      LookupInRoot(root, name);
    } else {
      LookupUnder(root, p, name);
    }
  }

  /** In terms of the header itself: what is found, and under which dictionary. */
  lemma FoundInHeader(root: Node, p: string, name: string, node: Node)
    requires SEPARATOR !in name && (p != "" || name != "")
    ensures NodeAt(root, Below(p, name)) == Found(node)
       <==> FilesAt(root, p).Found? && name in FilesAt(root, p).node && FilesAt(root, p).node[name] == Dictionary(node)
  {
    ListingIsLookup(root, p, name);
  }

  /** The files under a path are the dictionary "files" of its node, or, when the node has a string "link", of the
      node that the link names from the root. */
  lemma FilesInHeader(root: Node, p: string, files: Node)
    requires NodeAt(root, p).Found?
    ensures var node := NodeAt(root, p).node;
      FilesAt(root, p) == Found(files) <==>
      if "link" in node && node["link"].String? then
        var target := NodeAt(root, node["link"].s);
        target.Found? && "files" in target.node && target.node["files"] == Dictionary(files)
      else
        "files" in node && node["files"] == Dictionary(files)
  {}

  // ---- Links

  /** Below a link there is what its target's own files entry offers. */
  lemma FilesOfLink(root: Node, p: string, l: string)
    requires NodeAt(root, p).Found? && LinkOf(NodeAt(root, p).node) == Some(l) && NodeAt(root, l).Found?
    ensures FilesAt(root, p) == Entry(NodeAt(root, l).node, "files")
  {}

  ghost predicate SameLookup(root: Node, p: string, l: string, q: string) {
    NodeAt(root, p + [SEPARATOR] + q) == NodeAt(root, l + [SEPARATOR] + q)
  }

  lemma SameFirstSameLookup(root: Node, p: string, l: string, q: string)
    requires p != "" && l != ""
    requires Offer(FilesAt(root, p), Split(q)[0]) == Offer(FilesAt(root, l), Split(q)[0])
    requires NodeAt(root, p).Found? && NodeAt(root, l).Found?
    ensures SameLookup(root, p, l, q)
  {
    LookupComposes(root, p, q);
    LookupComposes(root, l, q);
    BelowFirst(root, NodeAt(root, p).node, Split(q));
    BelowFirst(root, NodeAt(root, l).node, Split(q));
  }

  /** Lookup under a link to a real directory is lookup under that directory. */
  lemma LinkedDirectory(root: Node, p: string, l: string, q: string)
    requires p != "" && l != ""
    requires NodeAt(root, p).Found? && LinkOf(NodeAt(root, p).node) == Some(l)
    requires NodeAt(root, l).Found? && LinkOf(NodeAt(root, l).node).None?
    ensures NodeAt(root, p + [SEPARATOR] + q) == NodeAt(root, l + [SEPARATOR] + q)
  {
    FilesOfLink(root, p, l);
    SameFirstSameLookup(root, p, l, q);
  }

  /** The nodes that files offer under names a path can contain. */
  function Children(files: Lookup): map<string, Node> {
    if files.Found? then
      map name | name in files.node && SEPARATOR !in name && files.node[name].Dictionary? :: files.node[name].entries
    else map[]
  }

  lemma OfferedChild(files: Lookup, name: string)
    requires !files.Diverges? && SEPARATOR !in name
    ensures Offer(files, name) == if name in Children(files) then Found(Children(files)[name]) else Missing
  {}

  lemma SameOffersSameChildren(a: Lookup, b: Lookup)
    requires !a.Diverges? && !b.Diverges?
    requires forall name :: SEPARATOR !in name ==> Offer(a, name) == Offer(b, name)
    ensures Children(a) == Children(b)
  {
    forall name | name in Children(a) || name in Children(b)
      ensures name in Children(a) && name in Children(b) && Children(a)[name] == Children(b)[name]
    {
      OfferedChild(a, name);
      OfferedChild(b, name);
    }
  }

  /** When lookup under a link is lookup under what it names: when that is no link itself, or is a link that
      leads to no other children than its own files entry offers. */
  lemma LinkIsTransparent(root: Node, p: string, l: string)
    requires p != "" && l != ""
    requires NodeAt(root, p).Found? && LinkOf(NodeAt(root, p).node) == Some(l)
    requires NodeAt(root, l).Found?
    ensures var target := NodeAt(root, l).node;
      (forall q :: SameLookup(root, p, l, q)) <==>
      || LinkOf(target).None?
      || (!FilesAt(root, l).Diverges? && Children(FilesAt(root, l)) == Children(Entry(target, "files")))
  {
    var own, led := FilesAt(root, p), FilesAt(root, l);
    FilesOfLink(root, p, l);
    if forall q :: SameLookup(root, p, l, q) {
      forall name | SEPARATOR !in name ensures Offer(own, name) == Offer(led, name) {
        assert SameLookup(root, p, l, name);
        LookupUnder(root, p, name);
        LookupUnder(root, l, name);
      }
      assert Offer(own, "") == Offer(led, "");
      SameOffersSameChildren(own, led);
    } else {
      var q :| !SameLookup(root, p, l, q);
      SplitHead(q);
      if LinkOf(NodeAt(root, l).node).None? {
        LinkedDirectory(root, p, l, q);
      } else if !led.Diverges? && Children(led) == Children(own) {
        OfferedChild(own, Split(q)[0]);
        OfferedChild(led, Split(q)[0]);
        SameFirstSameLookup(root, p, l, q);
      }
    }
  }

  /** In particular, a link to a link without files of its own leads nowhere. */
  lemma LinkToLink(root: Node, p: string, l: string, q: string)
    requires p != ""
    requires NodeAt(root, p).Found? && LinkOf(NodeAt(root, p).node) == Some(l)
    requires NodeAt(root, l).Found? && "files" !in NodeAt(root, l).node
    ensures NodeAt(root, p + [SEPARATOR] + q) == Missing
  {
    LookupComposes(root, p, q);
    FilesOfLink(root, p, l);
    BelowFirst(root, NodeAt(root, p).node, Split(q));
  }

  /** An archive with a file `f` in directory `d`, a link `a` to `d`, and a link `b` to `a`. */
  const FILE: Node := map["size" := Integer(1)]
  const DIRECTORY: Node := map["files" := Dictionary(map["f" := Dictionary(FILE)])]
  const TO_D: Node := map["link" := String("d")]
  const TO_A: Node := map["link" := String("a")]
  const LINKED: Node := map["files" := Dictionary(map["d" := Dictionary(DIRECTORY), "a" := Dictionary(TO_D),
                                                      "b" := Dictionary(TO_A)])]

  lemma TopOfLinked()
    ensures NodeAt(LINKED, "d") == Found(DIRECTORY)
    ensures NodeAt(LINKED, "a") == Found(TO_D)
    ensures NodeAt(LINKED, "b") == Found(TO_A)
  {
    LookupInRoot(LINKED, "d");
    LookupInRoot(LINKED, "a");
    LookupInRoot(LINKED, "b");
  }

  /** There the file is found through the first link and not through the second. */
  lemma SecondLinkLosesFile()
    ensures NodeAt(LINKED, "a/f") == Found(FILE)
    ensures NodeAt(LINKED, "b/f") == Missing
  {
    TopOfLinked();
    assert "a/f" == "a" + [SEPARATOR] + "f" && "b/f" == "b" + [SEPARATOR] + "f";
    LookupUnder(LINKED, "a", "f");
    LinkToLink(LINKED, "b", "a", "f");
  }

  // ---- Termination

  /** While resolving `p`, with some fuel, a directory linking to `l` is entered. */
  ghost predicate Follows(root: Node, p: string, l: string) {
    p != "" && exists f: nat, k: nat :: EntersLink(f, root, p, l, k)
  }

  ghost predicate EntersLink(f: nat, root: Node, p: string, l: string, k: nat) {
    && k < |Split(p)|
    && Walk(f, root, root, Split(p)[..k]).Found?
    && LinkOf(Walk(f, root, root, Split(p)[..k]).node) == Some(l)
  }

  lemma WalkOneMore(f: nat, root: Node, names: seq<string>, k: nat, dir: Node)
    requires k < |names| && Walk(f, root, root, names[..k]) == Found(dir) && Child(f, root, names[k], dir).Found?
    ensures Walk(f, root, root, names[..k + 1]) == Child(f, root, names[k], dir)
  {
    WalkAppend(f, root, root, names[..k], [names[k]]);
    assert names[..k + 1] == names[..k] + [names[k]];
    assert [names[k]][1..] == [];
  }

  /** Resolving one of the paths follows links to others of them only, each of smaller rank. */
  ghost predicate Ranked(root: Node, paths: iset<string>, rank: string -> nat) {
    forall p, l :: p in paths && Follows(root, p, l) ==> l in paths && rank(l) < rank(p)
  }

  /** If every link followed ranks below the path being resolved, the rank bounds the nesting of links. */
  lemma {:induction false} RankTerminates(root: Node, paths: iset<string>, rank: string -> nat, p: string)
    requires Ranked(root, paths, rank) && p in paths
    ensures !Resolve(rank(p), root, p).Diverges?
    decreases rank(p), 1, 0
  {
    if p == "" {
    } else {
      RankTerminatesBelow(root, paths, rank, p, 0, root);
      assert Split(p)[0..] == Split(p);
    }
  }

  lemma {:induction false} RankTerminatesBelow(root: Node, paths: iset<string>, rank: string -> nat, p: string,
                                               k: nat, dir: Node)
    requires Ranked(root, paths, rank) && p in paths
    requires p != "" && k <= |Split(p)| && Walk(rank(p), root, root, Split(p)[..k]) == Found(dir)
    ensures !Walk(rank(p), root, dir, Split(p)[k..]).Diverges?
    decreases rank(p), 0, |Split(p)| - k
  {
    var names, n := Split(p), rank(p);
    if k < |names| {
      if LinkOf(dir).Some? {
        var l := LinkOf(dir).value;
        assert EntersLink(n, root, p, l, k);
        assert Follows(root, p, l);
        RankTerminates(root, paths, rank, l);
        MoreFuel(rank(l), n - 1, root, l);
      }
      var child := Child(n, root, names[k], dir);
      assert !Files(n, root, dir).Diverges?;
      assert names[k..][0] == names[k] && names[k..][1..] == names[k + 1..];
      if child.Found? {
        WalkOneMore(n, root, names, k, dir);
        RankTerminatesBelow(root, paths, rank, p, k + 1, child.node);
      }
    }
  }

  /** The least fuel that resolving the path needs, given that `f` is enough. */
  ghost function LeastBelow(root: Node, path: string, f: nat): (least: nat)
    requires !Resolve(f, root, path).Diverges?
    ensures least <= f && !Resolve(least, root, path).Diverges?
    ensures least > 0 ==> Resolve(least - 1, root, path).Diverges?
  {
    if f == 0 || Resolve(f - 1, root, path).Diverges? then f else LeastBelow(root, path, f - 1)
  }

  ghost function Least(root: Node, path: string): nat {
    if f :| !Resolve(f, root, path).Diverges? then LeastBelow(root, path, f) else 0
  }

  lemma LeastIsLeast(root: Node, path: string, f: nat)
    requires !Resolve(f, root, path).Diverges?
    ensures !Resolve(Least(root, path), root, path).Diverges? && Least(root, path) <= f
  {
    var least := Least(root, path);
    if f < least {
      MoreFuel(f, least - 1, root, path);
    }
  }

  /** A walk that ends has followed the links of every directory that it went through. */
  lemma WalkedPast(f: nat, f': nat, root: Node, names: seq<string>, k: nat)
    requires k < |names| && !Walk(f, root, root, names).Diverges? && Walk(f', root, root, names[..k]).Found?
    ensures !Files(f, root, Walk(f', root, root, names[..k]).node).Diverges?
  {
    WalkAppend(f, root, root, names[..k], names[k..]);
    assert names[..k] + names[k..] == names;
    var at := Walk(f, root, root, names[..k]);
    var both := if f < f' then f' else f;
    MoreFuelWalk(f, both, root, root, names[..k]);
    MoreFuelWalk(f', both, root, root, names[..k]);
    assert at == Walk(f', root, root, names[..k]);
    assert !Child(f, root, names[k..][0], at.node).Diverges?;
  }

  /** If a path can be resolved, so can each link followed on the way, with less nesting. */
  lemma FollowedNeedsLess(root: Node, p: string, l: string)
    requires Follows(root, p, l) && !NodeAt(root, p).Diverges?
    ensures !NodeAt(root, l).Diverges? && Least(root, l) < Least(root, p)
  {
    var f := Settles(root, p);
    LeastIsLeast(root, p, f);
    var least := Least(root, p);
    var f', k :| EntersLink(f', root, p, l, k);
    WalkedPast(least, f', root, Split(p), k);
    assert least > 0 && !Resolve(least - 1, root, l).Diverges?;
    LeastIsLeast(root, l, least - 1);
    var g := Settles(root, l);
    MoreFuel(least - 1, least + g, root, l);
  }

  /** Looking up a path terminates if and only if the links that can be followed from it admit a decreasing rank. */
  lemma TerminatesExactly(root: Node, p: string)
    ensures !NodeAt(root, p).Diverges?
       <==> exists paths: iset<string>, rank: string -> nat :: p in paths && Ranked(root, paths, rank)
  {
    if paths: iset<string>, rank: string -> nat :| p in paths && Ranked(root, paths, rank) {
      RankTerminates(root, paths, rank, p);
      var f := Settles(root, p);
      MoreFuel(rank(p), rank(p) + f, root, p);
    }
    if !NodeAt(root, p).Diverges? {
      var paths := iset path: string | !NodeAt(root, path).Diverges?;
      var rank := (path: string) => Least(root, path);
      forall p', l | p' in paths && Follows(root, p', l) ensures l in paths && rank(l) < rank(p') {
        FollowedNeedsLess(root, p', l);
      }
      assert Ranked(root, paths, rank);
    }
  }
}
