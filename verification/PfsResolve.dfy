/** Path resolution as a fold over components: `Reader::resolve` of `src/core/pfs.cpp`. */
module PfsResolve {
  import opened Bytes
  import opened Disk
  import opened ApaVolume
  import opened PfsFormat
  import opened PfsStream
  import opened PfsReader
  import opened PfsDirectory
  import opened Paths

  /** A mounted filesystem as three questions: its root, the node at a location, a directory's entries. */
  datatype Fs = Fs(
    root: Option<Node>,
    inode: BlockInfo -> Option<Node>,
    list: (Node, bool) -> Option<seq<DirEntry>>)

  /** The filesystem a volume holds, given its accepted superblock. */
  function FsOf(v: Volume, sb: SuperBlock): Fs {
    Fs(InodeAt(v, sb, sb.root), loc => InodeAt(v, sb, loc), (node, dots) => Listing(v, sb, node, dots))
  }

  /** The first entry with a name. */
  function Find(entries: seq<DirEntry>, name: string): Option<DirEntry> {
    if entries == [] then None
    else if entries[0].name == name then Some(entries[0])
    else Find(entries[1..], name)
  }

  function StepInto(fs: Fs, node: Node, name: string): Option<Node> {
    match fs.list(node, true)
    case None => None
    case Some(entries) =>
      match Find(entries, name)
      case None => None
      case Some(e) => fs.inode(e.inode)
  }

  /** Follows components from the root; `.` stays where it is. */
  function Descend(fs: Fs, parts: seq<string>): Option<Node> {
    if parts == [] then fs.root
    else
      match Descend(fs, parts[..|parts| - 1])
      case None => None
      case Some(node) =>
        if parts[|parts| - 1] == "." then Some(node) else StepInto(fs, node, parts[|parts| - 1])
  }

  function Resolve(fs: Fs, path: string): Option<Node> {
    Descend(fs, Components(path))
  }

  lemma DescendSnoc(fs: Fs, parts: seq<string>, name: string)
    ensures Descend(fs, parts + [name]) ==
      match Descend(fs, parts)
      case None => None
      case Some(node) => if name == "." then Some(node) else StepInto(fs, node, name)
  {
    assert (parts + [name])[..|parts|] == parts;
  }

  /** Follows components from a node. */
  function DescendFrom(fs: Fs, node: Node, parts: seq<string>): Option<Node>
    decreases |parts|
  {
    if parts == [] then Some(node)
    else if parts[0] == "." then DescendFrom(fs, node, parts[1..])
    else
      match StepInto(fs, node, parts[0])
      case None => None
      case Some(next) => DescendFrom(fs, next, parts[1..])
  }

  /** Following a path is following its first part and then the rest from there. */
  lemma {:induction false} DescendConcat(fs: Fs, a: seq<string>, b: seq<string>)
    ensures Descend(fs, a + b) == match Descend(fs, a) case None => None case Some(node) => DescendFrom(fs, node, b)
    decreases |b|
  {
    hide StepInto;
    if b == [] {
      assert a + b == a;
    } else {
      assert a + b == (a + [b[0]]) + b[1..];
      DescendConcat(fs, a + [b[0]], b[1..]);
      DescendSnoc(fs, a, b[0]);
    }
  }

  lemma {:induction false} DescendPrefix(fs: Fs, a: seq<string>, b: seq<string>)
    requires Descend(fs, a) == None
    ensures Descend(fs, a + b) == None
  {
    if b == [] {
      assert a + b == a;
    } else {
      DescendPrefix(fs, a, b[..|b| - 1]);
      assert a + b == (a + b[..|b| - 1]) + [b[|b| - 1]];
      DescendSnoc(fs, a + b[..|b| - 1], b[|b| - 1]);
    }
  }

  /** Resolution sees only the components, so a path and its cache key lead to the same node. */
  lemma ResolveNormalized(fs: Fs, path: string)
    ensures Resolve(fs, Normalize(path)) == Resolve(fs, path)
  {
    NormalizeSound(path);
  }

  /** `i` is the first entry with a name. */
  predicate IsFirst(es: seq<DirEntry>, name: string, i: nat) {
    i < |es| && es[i].name == name && forall k :: 0 <= k < i ==> es[k].name != name
  }

  lemma {:induction false} FindsFirst(es: seq<DirEntry>, name: string)
    ensures forall i: nat :: IsFirst(es, name, i) ==> Find(es, name) == Some(es[i])
    ensures (forall i :: 0 <= i < |es| ==> es[i].name != name) ==> Find(es, name) == None
  {
    if es != [] && es[0].name != name {
      FindsFirst(es[1..], name);
      forall i: nat | IsFirst(es, name, i) ensures Find(es, name) == Some(es[i]) {
        assert IsFirst(es[1..], name, i - 1);
      }
    }
  }

  /**
   * One more component, after either separator: `.` stays, any other name, `..` too, leads to the
   * inode of the first entry with that name in the directory with its dot entries, and nowhere
   * when there is none.
   */
  lemma OneMoreComponent(fs: Fs, path: string, separator: char, name: string, node: Node)
    requires separator in {'/', '\\'} && name != "" && '/' !in name && '\\' !in name
    requires Resolve(fs, path) == Some(node)
    ensures var r := Resolve(fs, path + [separator] + name);
      && (name == "." ==> r == Some(node))
      && (name != "." && fs.list(node, true) == None ==> r == None)
      && (name != "." && fs.list(node, true).Some? ==>
        var es := fs.list(node, true).value;
        && (forall i: nat :: IsFirst(es, name, i) ==> r == fs.inode(es[i].inode))
        && ((forall i :: 0 <= i < |es| ==> es[i].name != name) ==> r == None))
  {
    hide Components, Find, IsFirst;
    OnlySlashesSeparate(path, name);
    assert path + [separator] + name == path + "/" + name || path + [separator] + name == path + "\\" + name;
    DescendSnoc(fs, Components(path), name);
    if fs.list(node, true).Some? {
      FindsFirst(fs.list(node, true).value, name);
    }
  }

  method ResolvePath(reader: Reader, path: string) returns (r: Option<Node>)
    requires reader.Valid()
    modifies reader`failed, reader.volume.device`log
    ensures Confined(reader.V(), FirstSubs(reader.probe.super.numSubs + 1), old(reader.volume.device.log),
                     reader.volume.device.log)
    ensures reader.failed == r.None?
    ensures r.Some? ==> reader.probe.valid && r == Resolve(FsOf(reader.V(), reader.probe.super), path)
    ensures !reader.volume.device.flaky && reader.probe.valid ==>
      r == Resolve(FsOf(reader.V(), reader.probe.super), path)
  {
    hide Components, InodeAt, Listing, Descend, Find, InWord, IsName, Confined, FirstSubs, Touched;
    ghost var v, sb := reader.V(), reader.probe.super;
    ghost var fs := FsOf(v, sb);
    ghost var exact := !reader.volume.device.flaky && reader.probe.valid;
    reader.failed := false;
    ghost var subs := FirstSubs(sb.numSubs + 1);
    ConfinedReflexive(v, subs, reader.volume.device.log);
    if !reader.probe.valid {
      reader.failed := true;
      return None;
    }
    r := reader.ReadInode(reader.probe.super.root);
    ConfinedWidens(v, JoinedSub(sb, sb.root.subpart), subs, old(reader.volume.device.log), reader.volume.device.log);
    NoComponents();
    DescendNothing(fs);
    assert path[..0] == "";
    var position := 0;
    while r.Some? && position < |path|
      invariant position <= |path|
      invariant reader.V() == v && reader.probe.super == sb && reader.probe.valid
      invariant reader.failed == r.None?
      invariant Confined(v, subs, old(reader.volume.device.log), reader.volume.device.log)
      invariant position == 0 || position == |path| || IsSeparator(path[position])
      invariant r.Some? ==> r == Descend(fs, Components(path[..position]))
      invariant exact && r.None? ==> Descend(fs, Components(path[..position])) == None
      decreases |path| - position, r.Some?
    {
      position := SkipSeparators(path, position);
      if position == |path| {
        break;
      }
      var end := TakeWord(path, position);
      var component := path[position..end];
      ghost var before := Components(path[..position]);
      DescendSnoc(fs, before, component);
      position := end;
      if component != "." {
        ghost var before := reader.volume.device.log;
        var entries := ListDirectory(reader, r.value, true);
        assert reader.V() == v && reader.probe.super == sb;
        ghost var listed := reader.volume.device.log;
        TouchedIsJoined(v, sb, r.value.inode, 0, r.value.inode.size);
        ConfinedWidens(v, Touched(v, sb, r.value.inode, 0, r.value.inode.size), subs, before, listed);
        ConfinedTransitive(v, subs, old(reader.volume.device.log), before, listed);
        if reader.failed {
          r := None;
        } else {
          var found := Find(entries, component);
          if found.None? {
            reader.failed := true;
            r := None;
          } else {
            r := reader.ReadInode(found.value.inode);
            assert reader.V() == v && reader.probe.super == sb;
            ConfinedWidens(v, JoinedSub(sb, found.value.inode.subpart), subs, listed, reader.volume.device.log);
            ConfinedTransitive(v, subs, old(reader.volume.device.log), listed, reader.volume.device.log);
          }
        }
      }
    }
    assert path[..|path|] == path;
    if r.None? && exact {
      PrefixFails(fs, path, position);
    }
  }

  lemma DescendNothing(fs: Fs)
    ensures Descend(fs, []) == fs.root
  {
  }

  lemma {:induction false} ComponentsPrefix(path: string, k: nat)
    requires k <= |path| && (k == |path| || k == 0 || IsSeparator(path[k]))
    ensures exists rest :: Components(path) == Components(path[..k]) + rest
    decreases |path|
  {
    if k == |path| {
      assert path[..k] == path;
      assert Components(path) == Components(path[..k]) + [];
    } else if k == 0 {
      assert path[..0] == "";
      assert Components(path) == Components(path[..k]) + Components(path);
    } else {
      SplitAtSeparator(path, k);
    }
  }

  /** Components before a separator stay as they are whatever follows. */
  lemma {:induction false} SplitAtSeparator(path: string, k: nat)
    requires k < |path| && IsSeparator(path[k])
    ensures |Components(path)| >= |Components(path[..k])|
    ensures Components(path) == Components(path[..k]) + Components(path)[|Components(path[..k])|..]
    ensures InWord(path) ==> |Components(path)| > |Components(path[..k])|
    decreases |path|
  {
    var front := path[..|path| - 1];
    var mine := Components(path[..k]);
    if k == |path| - 1 {
      assert front == path[..k];
    } else {
      SplitAtSeparator(front, k);
      assert front[..k] == path[..k];
    }
  }

  lemma PrefixFails(fs: Fs, path: string, k: nat)
    requires k <= |path| && Descend(fs, Components(path[..k])) == None
    requires k == |path| || k == 0 || IsSeparator(path[k])
    ensures Resolve(fs, path) == None
  {
    hide Descend, Components;
    ComponentsPrefix(path, k);
    var rest :| Components(path) == Components(path[..k]) + rest;
    DescendPrefix(fs, Components(path[..k]), rest);
  }
}
