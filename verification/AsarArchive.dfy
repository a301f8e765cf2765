/** Reading the header of an asar archive, in the source's own steps. */
module AsarArchive {
  import opened Wrappers
  import opened BaseValues
  import opened AsarLookup

  const UINT32 := 0x1_0000_0000
  const UINT64 := 0x1_0000_0000_0000_0000

  datatype FileInfo = FileInfo(unpacked: bool, size: nat, offset: nat)

  predicate IsDigit(c: char) { '0' <= c <= '9' }

  function DecimalValue(digits: string): nat
    requires forall i :: 0 <= i < |digits| ==> IsDigit(digits[i])
  {
    if digits == "" then 0
    else
      var last := digits[|digits| - 1];
      assert IsDigit(last);
      10 * DecimalValue(digits[..|digits| - 1]) + (last as int - '0' as int)
  }

  /** Decimal digits of a value that fits 64 bits. */
  function StringToUint64(s: string): Option<nat> {
    if s != "" && (forall i :: 0 <= i < |s| ==> IsDigit(s[i])) && DecimalValue(s) < UINT64 then Some(DecimalValue(s))
    else None
  }

  /** The source's casts: a 32-bit size, and an offset sum that wraps at 64 bits. */
  function FillFileInfo(headerSize: nat, node: Node): Option<FileInfo> {
    if !("size" in node && node["size"].Integer?) then None
    else
      var size := node["size"].i % UINT32;
      if "unpacked" in node && node["unpacked"] == Boolean(true) then Some(FileInfo(true, size, 0))
      else if !("offset" in node && node["offset"].String?) then None
      else
        var offset := StringToUint64(node["offset"].s);
        if offset.None? then None
        else Some(FileInfo(false, size, (offset.value + headerSize) % UINT64))
  }

  function ToDecimal(n: nat): string {
    if n < 10 then [('0' as int + n) as char]
    else ToDecimal(n / 10) + [('0' as int + n % 10) as char]
  }

  lemma {:induction false} DecimalRoundTrip(n: nat)
    ensures ToDecimal(n) != ""
    ensures forall i :: 0 <= i < |ToDecimal(n)| ==> IsDigit(ToDecimal(n)[i])
    ensures DecimalValue(ToDecimal(n)) == n
  {
    if n < 10 {
      assert DecimalValue("") == 0;
      assert ToDecimal(n)[..0] == "";
    } else {
      var (s, rest) := (ToDecimal(n), ToDecimal(n / 10));
      DecimalRoundTrip(n / 10);
      assert s[..|s| - 1] == rest;
    }
  }

  /** A packed file is read back as it was recorded: its size, and its offset moved behind the header. */
  lemma PackedFileInfo(headerSize: nat, node: Node, size: nat, offset: nat)
    requires "size" in node && node["size"] == Integer(size) && size <= INT32_MAX
    requires "offset" in node && node["offset"] == String(ToDecimal(offset))
    requires !("unpacked" in node && node["unpacked"] == Boolean(true))
    requires headerSize + offset < UINT64
    ensures FillFileInfo(headerSize, node) == Some(FileInfo(false, size, headerSize + offset))
  {
    DecimalRoundTrip(offset);
  }

  function Zeros(k: nat): string {
    seq(k, i => '0')
  }

  /** Every string of digits is the decimal form of its value behind some zeros. */
  lemma {:induction false} DecimalForm(s: string) returns (k: nat)
    requires s != "" && forall i :: 0 <= i < |s| ==> IsDigit(s[i])
    ensures s == Zeros(k) + ToDecimal(DecimalValue(s))
    decreases |s|
  {
    var last := |s| - 1;
    var d := s[last];
    assert IsDigit(d);
    if last == 0 {
      k := 0;
      assert s == [d] && DecimalValue(s[..last]) == 0;
    } else {
      k := DecimalForm(s[..last]);
      var v := DecimalValue(s[..last]);
      assert s == s[..last] + [d];
      if v == 0 {
        assert Zeros(k) + "0" == Zeros(k + 1);
        k := k + 1;
      } else {
        assert (10 * v + (d as int - '0' as int)) / 10 == v;
      }
    }
  }

  lemma {:induction false} ZerosCountNothing(k: nat, s: string)
    requires forall i :: 0 <= i < |s| ==> IsDigit(s[i])
    ensures forall i :: 0 <= i < k + |s| ==> IsDigit((Zeros(k) + s)[i])
    ensures DecimalValue(Zeros(k) + s) == DecimalValue(s)
    decreases k, |s|
  {
    if s != "" {
      ZerosCountNothing(k, s[..|s| - 1]);
      assert (Zeros(k) + s)[..k + |s| - 1] == Zeros(k) + s[..|s| - 1];
    } else if k > 0 {
      ZerosCountNothing(k - 1, "");
      assert Zeros(k) + "" == (Zeros(k - 1) + "") + "0";
      assert (Zeros(k) + "")[..k - 1] == Zeros(k - 1) + "";
    } else {
      assert Zeros(0) + "" == "";
    }
  }

  /** The string is a decimal form of the number, which fits 64 bits. */
  ghost predicate WritesUint64(s: string, n: nat) {
    n < UINT64 && exists k: nat :: s == Zeros(k) + ToDecimal(n)
  }

  /** Parsing accepts exactly the decimal forms, leading zeros included, of the numbers that fit 64 bits. */
  lemma ParsesExactly(s: string, n: nat)
    ensures StringToUint64(s) == Some(n) <==> WritesUint64(s, n)
  {
    if StringToUint64(s) == Some(n) {
      var k := DecimalForm(s);
    }
    if k: nat :| s == Zeros(k) + ToDecimal(n) {
      DecimalRoundTrip(n);
      ZerosCountNothing(k, ToDecimal(n));
    }
  }

  predicate IsUnpacked(node: Node) {
    "unpacked" in node && node["unpacked"] == Boolean(true)
  }

  /** The node's offset is recorded as this number. */
  ghost predicate OffsetIs(node: Node, n: nat) {
    "offset" in node && node["offset"].String? && WritesUint64(node["offset"].s, n)
  }

  /** What the information of a file is, for every node: none without an integer size, or for a packed file
      without a proper offset; otherwise the size modulo 32 bits, whether the file lies outside the archive, and
      for a packed one the offset behind the header modulo 64 bits. An unpacked file needs no offset. */
  lemma FileInfoExactly(headerSize: nat, node: Node)
    ensures var info := FillFileInfo(headerSize, node);
      && (info.Some? <==> "size" in node && node["size"].Integer?
                          && (IsUnpacked(node) || exists n: nat :: OffsetIs(node, n)))
      && (info.Some? ==>
            && info.value.size < 0x1_0000_0000
            && (node["size"].i - info.value.size) % 0x1_0000_0000 == 0
            && (info.value.unpacked <==> IsUnpacked(node))
            && forall n: nat :: !IsUnpacked(node) && OffsetIs(node, n) ==>
                 info.value.offset == (n + headerSize) % 0x1_0000_0000_0000_0000)
  {
    if "size" in node && node["size"].Integer? {
      var i := node["size"].i;
      assert i == (i / UINT32) * 0x1_0000_0000 + i % UINT32;
    }
    if "offset" in node && node["offset"].String? {
      var s := node["offset"].s;
      if StringToUint64(s).Some? {
        ParsesExactly(s, StringToUint64(s).value);
        assert OffsetIs(node, StringToUint64(s).value);
      }
      forall n: nat | OffsetIs(node, n) ensures StringToUint64(s) == Some(n) {
        ParsesExactly(s, n);
      }
    }
  }

  /** Following links from `path`, at most `n` of them, ends at a node that is no link, or at nothing. */
  ghost predicate EndsAt(root: Node, path: string, n: nat, end: Option<Node>)
    decreases n
  {
    match NodeAt(root, path)
    case Diverges => false
    case Missing => end == None
    case Found(d) =>
      match LinkOf(d)
      case None => end == Some(d)
      case Some(l) => n > 0 && EndsAt(root, l, n - 1, end)
  }

  function AsLookup(r: Option<Node>): Lookup {
    if r.Some? then Found(r.value) else Missing
  }

  lemma NodeAtIs(f: nat, root: Node, path: string)
    requires !Resolve(f, root, path).Diverges?
    ensures NodeAt(root, path) == Resolve(f, root, path)
  {
    var f' := Settles(root, path);
    MoreFuel(f, f + f', root, path);
  }

  method GetFilesNode(ghost f: nat, root: Node, dir: Node) returns (r: Option<Node>)
    requires !Files(f, root, dir).Diverges?
    ensures AsLookup(r) == Files(f, root, dir)
    decreases f, 0, 0
  {
    var d := dir;
    if LinkOf(dir).Some? {
      var linked := GetNodeFromPath(f - 1, LinkOf(dir).value, root);
      if linked.None? {
        return None;
      }
      d := linked.value;
    }
    if "files" in d && d["files"].Dictionary? {
      return Some(d["files"].entries);
    }
    return None;
  }

  method GetChildNode(ghost f: nat, root: Node, name: string, dir: Node) returns (r: Option<Node>)
    requires !Child(f, root, name, dir).Diverges?
    ensures AsLookup(r) == Child(f, root, name, dir)
    decreases f, 1, 0
  {
    var files := GetFilesNode(f, root, dir);
    if files.Some? && name in files.value && files.value[name].Dictionary? {
      return Some(files.value[name].entries);
    }
    return None;
  }

  /** The find-and-erase loop. It needs only that following links ends. */
  method GetNodeFromPath(ghost f: nat, fullPath: string, root: Node) returns (r: Option<Node>)
    requires !Resolve(f, root, fullPath).Diverges?
    ensures AsLookup(r) == Resolve(f, root, fullPath) == NodeAt(root, fullPath)
    decreases f, 2, 0
  {
    NodeAtIs(f, root, fullPath);
    var path := fullPath;
    if path == "" {
      return Some(root);
    }
    var dir := root;
    var position := FirstSeparator(path);
    while position < |path|
      invariant position == FirstSeparator(path)
      invariant Walk(f, root, dir, Split(path)) == Resolve(f, root, fullPath)
      decreases |path|
    {
      SplitAt(path, position);
      assert Split(path)[1..] == Split(path[position + 1..]);
      var child := GetChildNode(f, root, path[..position], dir);
      if child.None? {
        return None;
      }
      dir := child.value;
      path := path[position + 1..];
      position := FirstSeparator(path);
    }
    SplitWhole(path);
    assert [path][1..] == [];
    r := GetChildNode(f, root, path, dir);
  }

  class Archive {
    /** `None` until the header has been read. */
    const header: Option<Node>
    const headerSize: nat

    constructor (header: Option<Node>, headerSize: nat)
      ensures this.header == header && this.headerSize == headerSize
    {
      this.header, this.headerSize := header, headerSize;
    }

    /** The information is that of the node at the end of the chain of links. */
    method GetFileInfo(path: string, ghost n: nat, ghost end: Option<Node>) returns (info: Option<FileInfo>)
      requires header.Some? ==> EndsAt(header.value, path, n, end)
      ensures info == if header.None? || end.None? then None else FillFileInfo(headerSize, end.value)
      decreases n
    {
      if header.None? {
        return None;
      }
      ghost var f := Settles(header.value, path);
      var node := GetNodeFromPath(f, path, header.value);
      if node.None? {
        return None;
      }
      var link := LinkOf(node.value);
      if link.Some? {
        info := GetFileInfo(link.value, n - 1, end);
      } else {
        info := FillFileInfo(headerSize, node.value);
      }
    }

    /** Lists every key once; a name is listed as a node exactly when it can be looked up below the path. */
    method Readdir(path: string) returns (list: Option<seq<string>>)
      requires header.Some? ==> FilesAt(header.value, path) != Diverges
      ensures list.Some? <==> header.Some? && FilesAt(header.value, path).Found?
      ensures list.Some? ==>
                && (forall name :: name in list.value <==> name in FilesAt(header.value, path).node)
                && (forall i, j :: 0 <= i < j < |list.value| ==> list.value[i] != list.value[j])
      ensures list.Some? ==> forall name :: SEPARATOR !in name && (path != "" || name != "") ==>
                NodeAt(header.value, Below(path, name)) == Entry(FilesAt(header.value, path).node, name)
    {
      if header.None? {
        return None;
      }
      var root := header.value;
      ghost var f0 := FilesFuel(root, path);
      var node := GetNodeFromPath(f0, path, root);
      if node.None? {
        return None;
      }
      var files := GetFilesNode(f0, root, node.value);
      if files.None? {
        return None;
      }
      var names: seq<string> := [];
      var rest := files.value.Keys;
      while rest != {}
        invariant rest <= files.value.Keys
        invariant forall name :: name in names <==> name in files.value && name !in rest
        invariant forall i, j :: 0 <= i < j < |names| ==> names[i] != names[j]
        decreases rest
      {
        var name :| name in rest;
        names := names + [name];
        rest := rest - {name};
      }
      forall name | SEPARATOR !in name && (path != "" || name != "")
        ensures NodeAt(root, Below(path, name)) == Entry(FilesAt(root, path).node, name)
      {
        ListingIsLookup(root, path, name);
      }
      return Some(names);
    }
  }

  lemma FilesFuel(root: Node, path: string) returns (f: nat)
    ensures Resolve(f, root, path) == NodeAt(root, path)
    ensures NodeAt(root, path).Found? ==> Files(f, root, NodeAt(root, path).node) == FilesAt(root, path)
  {
    f := Settles(root, path);
    if NodeAt(root, path).Found? {
      var g := SettlesFiles(root, NodeAt(root, path).node);
      f := f + g;
    }
  }
}
