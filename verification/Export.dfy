/**
 * Recursive export to the host: `src/host/pfs_export.cpp`. A successful export is a finite tree that
 * mirrors the directory graph; its counters, files and directories are read off that tree.
 */
module Export {
  import opened Bytes
  import opened Disk
  import opened ApaVolume
  import opened PfsFormat
  import opened PfsStream
  import opened PfsReader
  import opened PfsDirectory
  import opened PfsResolve
  import opened HostNames

  const MAX_DEPTH: nat := 256
  const CHUNK_SIZE: nat := 1024 * 1024

  /** A host path, and the key under which a case-insensitive host finds it. */
  type HostPath = seq<string>

  function KeyOf(path: HostPath): (r: HostPath)
    ensures |r| == |path| && forall i :: 0 <= i < |r| ==> r[i] == Uppercase(path[i])
  {
    seq(|path|, i requires 0 <= i < |path| => Uppercase(path[i]))
  }

  /** Directories are told apart by sub-partition and number. */
  function InodeKey(location: BlockInfo): nat {
    location.subpart * 0x1_0000_0000 + location.number
  }

  lemma InodeKeyInjective(a: BlockInfo, b: BlockInfo)
    ensures InodeKey(a) == InodeKey(b) <==> a.subpart == b.subpart && a.number == b.number
  {
    var x: int, y: int := a.subpart, b.subpart;
    if x < y {
      assert (y - x) * 0x1_0000_0000 >= 0x1_0000_0000;
    } else if y < x {
      assert (x - y) * 0x1_0000_0000 >= 0x1_0000_0000;
    }
  }

  // ---- what an export produces ----

  datatype Stats = Stats(files: nat, directories: nat, bytes: nat, skipped: nat) {
    function Plus(s: Stats): Stats {
      Stats(files + s.files, directories + s.directories, bytes + s.bytes, skipped + s.skipped)
    }
  }

  datatype Tree =
    | FileTree(node: Node, bytes: seq<Byte>)
    | OtherTree(node: Node)
    | DirTree(node: Node, forest: Forest)

  /** The entries of a directory in order; `Missing` stands for an entry whose inode could not be read. */
  datatype Forest =
    | Empty
    | Missing(front: Forest)
    | Grow(front: Forest, host: string, tree: Tree)

  function Content(v: Volume, sb: SuperBlock, inode: Inode): Option<seq<Byte>> {
    if ReadOk(v, sb, inode, 0, inode.size) then Some(ReadBytes(v, sb, inode, 0, inode.size)) else None
  }

  function HostsOf(f: Forest): seq<string> {
    match f
    case Empty => []
    case Missing(front) => HostsOf(front)
    case Grow(front, host, _) => HostsOf(front) + [host]
  }

  /** What the export reads: the volume, its superblock, and whether only unreadable inodes go missing. */
  datatype Origin = Origin(v: Volume, sb: SuperBlock, exact: bool)

  /** `t` is the export of `node` at `depth`, below the directories in `active`. */
  ghost predicate Exported(o: Origin, depth: nat, active: set<nat>, node: Node, t: Tree)
    decreases t
  {
    && depth <= MAX_DEPTH && t.node == node
    && match t
       case FileTree(_, bytes) => Kind(node.inode.mode) == MODE_REGULAR && Content(o.v, o.sb, node.inode) == Some(bytes)
       case OtherTree(_) => Kind(node.inode.mode) != MODE_REGULAR && Kind(node.inode.mode) != MODE_DIRECTORY
       case DirTree(_, forest) =>
         && Kind(node.inode.mode) == MODE_DIRECTORY && InodeKey(node.location) !in active
         && Listing(o.v, o.sb, node, false).Some?
         && Grown(o, depth, active + {InodeKey(node.location)}, Listing(o.v, o.sb, node, false).value, forest)
  }

  /** `f` is the export of a directory's entries, one level below `depth`. */
  ghost predicate Grown(o: Origin, depth: nat, active: set<nat>, entries: seq<DirEntry>, f: Forest)
    decreases f
  {
    match f
    case Empty => entries == []
    case Missing(front) =>
      && entries != [] && Grown(o, depth, active, entries[..|entries| - 1], front)
      && (o.exact ==> InodeAt(o.v, o.sb, entries[|entries| - 1].inode) == None)
    case Grow(front, host, tree) =>
      && entries != [] && Grown(o, depth, active, entries[..|entries| - 1], front)
      && host == Alias(entries[|entries| - 1].name, UpperSet(HostsOf(front)))
      && InodeAt(o.v, o.sb, entries[|entries| - 1].inode) == Some(tree.node)
      && Exported(o, depth + 1, active, tree.node, tree)
  }

  function Count(t: Tree): Stats {
    match t
    case FileTree(_, bytes) => Stats(1, 0, |bytes|, 0)
    case OtherTree(_) => Stats(0, 0, 0, 1)
    case DirTree(_, forest) => Stats(0, 1, 0, 0).Plus(CountIn(forest))
  }

  function CountIn(f: Forest): Stats {
    match f
    case Empty => Stats(0, 0, 0, 0)
    case Missing(front) => CountIn(front).Plus(Stats(0, 0, 0, 1))
    case Grow(front, _, tree) => CountIn(front).Plus(Count(tree))
  }

  /** The host files of a tree put at `key`. */
  function FilesOf(t: Tree, key: HostPath): map<HostPath, seq<Byte>> {
    match t
    case FileTree(_, bytes) => map[key := bytes]
    case OtherTree(_) => map[]
    case DirTree(_, forest) => FilesIn(forest, key)
  }

  function FilesIn(f: Forest, key: HostPath): map<HostPath, seq<Byte>> {
    match f
    case Empty => map[]
    case Missing(front) => FilesIn(front, key)
    case Grow(front, host, tree) => FilesIn(front, key) + FilesOf(tree, key + [Uppercase(host)])
  }

  /** A directory and the ones above it. */
  function Ancestors(key: HostPath): set<HostPath> {
    set k | 0 < k <= |key| :: key[..k]
  }

  function DirectoriesOf(t: Tree, key: HostPath): set<HostPath>
    requires key != []
  {
    match t
    case FileTree(_, _) => Ancestors(key[..|key| - 1])
    case OtherTree(_) => {}
    case DirTree(_, forest) => Ancestors(key) + DirectoriesIn(forest, key)
  }

  function DirectoriesIn(f: Forest, key: HostPath): set<HostPath> {
    match f
    case Empty => {}
    case Missing(front) => DirectoriesIn(front, key)
    case Grow(front, host, tree) => DirectoriesIn(front, key) + DirectoriesOf(tree, key + [Uppercase(host)])
  }

  // ---- what follows for every successful export ----

  /** The entries of all exported directories together. */
  ghost function ListedEntries(o: Origin, t: Tree): nat {
    match t
    case DirTree(node, forest) =>
      (match Listing(o.v, o.sb, node, false) case None => 0 case Some(es) => |es|) + ListedBelow(o, forest)
    case _ => 0
  }

  ghost function ListedBelow(o: Origin, f: Forest): nat {
    match f
    case Empty => 0
    case Missing(front) => ListedBelow(o, front)
    case Grow(front, _, tree) => ListedBelow(o, front) + ListedEntries(o, tree)
  }

  /** Sizes of all exported files together, as their inodes state them. */
  function SizesOf(t: Tree): nat {
    match t
    case FileTree(node, _) => node.inode.size
    case OtherTree(_) => 0
    case DirTree(_, forest) => SizesIn(forest)
  }

  function SizesIn(f: Forest): nat {
    match f
    case Empty => 0
    case Missing(front) => SizesIn(front)
    case Grow(front, _, tree) => SizesIn(front) + SizesOf(tree)
  }

  /** Every entry is counted once, and the byte counter is the sum of the file sizes. */
  lemma {:induction false} CountersAddUp(o: Origin, depth: nat, active: set<nat>, node: Node, t: Tree)
    requires Exported(o, depth, active, node, t)
    ensures var c := Count(t);
      c.files + c.directories + c.skipped == 1 + ListedEntries(o, t) && c.bytes == SizesOf(t)
    decreases t
  {
    hide Content, Listing, Grown, CountIn, SizesIn, ListedBelow, ReadOk;
    if t.DirTree? {
      ForestCountersAddUp(o, depth, active + {InodeKey(node.location)}, Listing(o.v, o.sb, node, false).value,
                          t.forest);
    } else if t.FileTree? {
      ContentLength(o, node.inode);
    }
  }

  lemma ContentLength(o: Origin, inode: Inode)
    ensures Content(o.v, o.sb, inode).Some? ==> |Content(o.v, o.sb, inode).value| == inode.size
  {
    hide ReadOk;
  }

  lemma {:induction false} ForestCountersAddUp(o: Origin, depth: nat, active: set<nat>, entries: seq<DirEntry>,
                                               f: Forest)
    requires Grown(o, depth, active, entries, f)
    ensures var c := CountIn(f);
      c.files + c.directories + c.skipped == |entries| + ListedBelow(o, f) && c.bytes == SizesIn(f)
    decreases f
  {
    hide Exported, InodeAt, Alias, UpperSet, HostsOf, Count, SizesOf, ListedEntries;
    match f
    case Empty =>
    case Missing(front) => ForestCountersAddUp(o, depth, active, entries[..|entries| - 1], front);
    case Grow(front, _, tree) =>
      ForestCountersAddUp(o, depth, active, entries[..|entries| - 1], front);
      CountersAddUp(o, depth + 1, active, tree.node, tree);
  }

  /** Every path of a tree starts with the tree's own path. */
  lemma {:induction false} FilesAreBelow(t: Tree, key: HostPath)
    ensures forall k :: k in FilesOf(t, key) ==> key <= k
    decreases t
  {
    hide Uppercase;
    if t.DirTree? {
      ForestFilesAreBelow(t.forest, key);
    }
  }

  lemma {:induction false} ForestFilesAreBelow(f: Forest, key: HostPath)
    ensures forall k :: k in FilesIn(f, key) ==> key < k && k[|key|] in UpperSet(HostsOf(f))
    decreases f
  {
    hide Uppercase, UpperSet;
    match f
    case Empty =>
    case Missing(front) => ForestFilesAreBelow(front, key);
    case Grow(front, host, tree) =>
      ForestFilesAreBelow(front, key);
      var below := key + [Uppercase(host)];
      FilesAreBelow(tree, below);
      UpperSetSnoc(HostsOf(front), host);
      forall k | k in FilesOf(tree, below) ensures key < k && k[|key|] == Uppercase(host) {
        assert k[..|below|] == below;
        assert k[..|key|] == key;
      }
  }

  /** No exported file overwrites another, even on a host that ignores case. */
  lemma {:induction false} FilesStayApart(o: Origin, depth: nat, active: set<nat>, node: Node, t: Tree, key: HostPath)
    requires Exported(o, depth, active, node, t)
    ensures |FilesOf(t, key)| == Count(t).files
    decreases t
  {
    hide Content, Listing, InodeAt, Alias, UpperSet, Uppercase;
    if t.DirTree? {
      ForestFilesStayApart(o, depth, active + {InodeKey(node.location)}, Listing(o.v, o.sb, node, false).value,
                           t.forest, key);
    }
  }

  lemma {:induction false} ForestFilesStayApart(
    o: Origin, depth: nat, active: set<nat>, entries: seq<DirEntry>, f: Forest, key: HostPath)
    requires Grown(o, depth, active, entries, f)
    ensures |FilesIn(f, key)| == CountIn(f).files
    decreases f
  {
    hide Content, Listing, InodeAt, Alias, Uppercase, UpperSet, Exported, HostsOf;
    match f
    case Empty =>
    case Missing(front) => ForestFilesStayApart(o, depth, active, entries[..|entries| - 1], front, key);
    case Grow(front, host, tree) =>
      ForestFilesStayApart(o, depth, active, entries[..|entries| - 1], front, key);
      FilesStayApart(o, depth + 1, active, tree.node, tree, key + [Uppercase(host)]);
      ForestFilesAreBelow(front, key);
      FilesAreBelow(tree, key + [Uppercase(host)]);
      var a, b := FilesIn(front, key), FilesOf(tree, key + [Uppercase(host)]);
      forall k | k in b ensures k !in a {
        var below := key + [Uppercase(host)];
        assert k[|key|] == below[|key|];
      }
      MapUnionSize(a, b);
  }

  lemma MapUnionSize<K, V>(a: map<K, V>, b: map<K, V>)
    requires a.Keys !! b.Keys
    ensures |a + b| == |a| + |b|
  {
    assert (a + b).Keys == a.Keys + b.Keys;
    assert |a.Keys + b.Keys| == |a.Keys| + |b.Keys|;
  }

  /** The export of an entry with a readable inode. */
  lemma {:induction false} SubtreeAt(o: Origin, depth: nat, active: set<nat>, entries: seq<DirEntry>, f: Forest, i: nat)
    returns (t: Tree)
    requires o.exact && Grown(o, depth, active, entries, f) && i < |entries|
    requires InodeAt(o.v, o.sb, entries[i].inode).Some?
    ensures Exported(o, depth + 1, active, InodeAt(o.v, o.sb, entries[i].inode).value, t)
    decreases f
  {
    hide InodeAt, Alias, UpperSet, Exported, HostsOf;
    if i == |entries| - 1 {
      t := f.tree;
    } else {
      t := SubtreeAt(o, depth, active, entries[..|entries| - 1], f.front, i);
    }
  }

  /** The node behind a directory's entry number `i`, when both can be read. */
  function ChildAt(o: Origin, node: Node, i: nat): Option<Node> {
    match Listing(o.v, o.sb, node, false)
    case None => None
    case Some(es) => if i < |es| then InodeAt(o.v, o.sb, es[i].inode) else None
  }

  /** Following the entries numbered `path` from `node` leads to `target`. */
  predicate Leads(o: Origin, node: Node, path: seq<nat>, target: Node)
    decreases |path|
  {
    if path == [] then node == target
    else ChildAt(o, node, path[0]).Some? && Leads(o, ChildAt(o, node, path[0]).value, path[1..], target)
  }

  /**
   * An export only succeeds on an acyclic graph: no directory below another has its inode, nothing
   * lies deeper than the limit.
   */
  lemma {:induction false} ExportedIsAcyclic(o: Origin, depth: nat, active: set<nat>, node: Node, t: Tree,
                                             path: seq<nat>, target: Node)
    requires o.exact && Exported(o, depth, active, node, t) && Leads(o, node, path, target)
    ensures depth + |path| <= 256
    ensures Kind(target.inode.mode) == MODE_DIRECTORY ==>
      && InodeKey(target.location) !in active
      && (path != [] ==> target.location.(count := 0) != node.location.(count := 0))
    decreases |path|
  {
    hide InodeAt, Alias, UpperSet, Content, Grown, InodeKey, Parse, ReadOk, ReadBytes;
    InodeKeyInjective(target.location, node.location);
    if path != [] {
      var es := Listing(o.v, o.sb, node, false).value;
      var child := InodeAt(o.v, o.sb, es[path[0]].inode).value;
      var below := active + {InodeKey(node.location)};
      var sub := SubtreeAt(o, depth, below, es, t.forest, path[0]);
      ExportedIsAcyclic(o, depth + 1, below, child, sub, path[1..], target);
    }
  }

  /** When only unreadable inodes are skipped there is at most one export of a node. */
  lemma {:induction false} ExportedUnique(o: Origin, depth: nat, active: set<nat>, node: Node, t: Tree, u: Tree)
    requires o.exact && Exported(o, depth, active, node, t) && Exported(o, depth, active, node, u)
    ensures t == u
    decreases t
  {
    hide Content, Listing, InodeAt, Alias, UpperSet;
    if t.DirTree? {
      ForestUnique(o, depth, active + {InodeKey(node.location)}, Listing(o.v, o.sb, node, false).value, t.forest,
                   u.forest);
    }
  }

  lemma {:induction false} ForestUnique(o: Origin, depth: nat, active: set<nat>, entries: seq<DirEntry>, f: Forest,
                                        g: Forest)
    requires o.exact && Grown(o, depth, active, entries, f) && Grown(o, depth, active, entries, g)
    ensures f == g
    decreases f
  {
    hide Content, Listing, InodeAt, Alias, UpperSet, Exported;
    match f
    case Empty =>
    case Missing(front) => ForestUnique(o, depth, active, entries[..|entries| - 1], front, g.front);
    case Grow(front, _, tree) =>
      ForestUnique(o, depth, active, entries[..|entries| - 1], front, g.front);
      ExportedUnique(o, depth + 1, active, tree.node, tree, g.tree);
  }

  // ---- the host ----

  /** A host directory tree that ignores case; unless `reliable`, any operation may fail. */
  class HostTree {
    const reliable: bool
    var files: map<HostPath, seq<Byte>>
    var directories: set<HostPath>

    constructor (reliable: bool)
      ensures this.reliable == reliable && files == map[] && directories == {}
    {
      this.reliable := reliable;
      files, directories := map[], {};
    }

    method CreateDirectories(path: HostPath) returns (ok: bool)
      modifies this`directories
      ensures reliable ==> ok
      ensures ok ==> directories == old(directories) + Ancestors(KeyOf(path))
    {
      ok := true;
      if !reliable {
        ok := *;
      }
      if ok {
        directories := directories + Ancestors(KeyOf(path));
      }
    }

    /** Opens an empty file. */
    method Create(path: HostPath) returns (ok: bool)
      modifies this`files
      ensures reliable ==> ok
      ensures files == if ok then old(files)[KeyOf(path) := []] else old(files)
    {
      ok := true;
      if !reliable {
        ok := *;
      }
      if ok {
        files := files[KeyOf(path) := []];
      }
    }

    /** Adds bytes at the end of a file; a failed write may have added some of them. */
    method Append(path: HostPath, bytes: seq<Byte>) returns (ok: bool)
      requires KeyOf(path) in files
      modifies this`files
      ensures reliable ==> ok
      ensures ok ==> files == old(files)[KeyOf(path) := old(files)[KeyOf(path)] + bytes]
      ensures files.Keys == old(files).Keys && forall k :: k in files && k != KeyOf(path) ==> files[k] == old(files)[k]
    {
      ok := true;
      var written := |bytes|;
      if !reliable {
        ok := *;
        if !ok {
          written :| 0 <= written <= |bytes|;
        }
      }
      files := files[KeyOf(path) := files[KeyOf(path)] + bytes[..written]];
      assert bytes[..|bytes|] == bytes;
    }

    method Remove(path: HostPath)
      modifies this`files
      ensures files == old(files) - {KeyOf(path)}
    {
      files := files - {KeyOf(path)};
    }
  }

  /** The whole content of a regular file the export can reach from a node. */
  ghost predicate DeliveredFrom(o: Origin, node: Node, bytes: seq<Byte>) {
    exists path, target :: Leads(o, node, path, target) && IsFile(o, target, bytes)
  }

  predicate IsFile(o: Origin, target: Node, bytes: seq<Byte>) {
    Kind(target.inode.mode) == MODE_REGULAR && Content(o.v, o.sb, target.inode) == Some(bytes)
  }

  predicate Below(key: HostPath, k: HostPath) {
    key <= k
  }

  /**
   * What an export to `key` did to the host, finished or not: nothing outside `key` changed, every
   * file below it is an old one or the whole content of a file below `node`, and at most one old
   * file is gone.
   */
  ghost predicate OnlyDelivered(o: Origin, node: Node, key: HostPath, before: map<HostPath, seq<Byte>>,
                                after: map<HostPath, seq<Byte>>) {
    && (forall k :: !Below(key, k) ==> (k in after <==> k in before) && (k in before ==> after[k] == before[k]))
    && (forall k :: k in after && Below(key, k) ==>
          (k in before && before[k] == after[k]) || DeliveredFrom(o, node, after[k]))
    && (forall j, k :: j in before && k in before && j !in after && k !in after ==> j == k)
  }

  /** No export of the node exists. */
  ghost predicate NoExport(o: Origin, depth: nat, active: set<nat>, node: Node) {
    forall t :: !Exported(o, depth, active, node, t)
  }

  ghost predicate NoForest(o: Origin, depth: nat, active: set<nat>, entries: seq<DirEntry>) {
    forall f :: !Grown(o, depth, active, entries, f)
  }

  lemma {:induction false} EntryBlocks(o: Origin, depth: nat, active: set<nat>, entries: seq<DirEntry>, i: nat)
    requires o.exact && i < |entries| && InodeAt(o.v, o.sb, entries[i].inode).Some?
    requires NoExport(o, depth + 1, active, InodeAt(o.v, o.sb, entries[i].inode).value)
    ensures NoForest(o, depth, active, entries)
  {
    hide InodeAt, Exported, Grown;
    forall f | Grown(o, depth, active, entries, f) ensures false {
      var t := SubtreeAt(o, depth, active, entries, f, i);
    }
  }

  lemma {:induction false} ForestBlocks(o: Origin, depth: nat, active: set<nat>, node: Node)
    requires Listing(o.v, o.sb, node, false).Some?
    requires NoForest(o, depth, active + {InodeKey(node.location)}, Listing(o.v, o.sb, node, false).value)
    ensures Kind(node.inode.mode) == MODE_DIRECTORY ==> NoExport(o, depth, active, node)
  {
    hide InodeAt, Listing, Content;
    var entries := Listing(o.v, o.sb, node, false).value;
    forall t ensures Kind(node.inode.mode) == MODE_DIRECTORY ==> !Exported(o, depth, active, node, t) {
      if t.DirTree? {
        assert !Grown(o, depth, active + {InodeKey(node.location)}, entries, t.forest);
      }
    }
  }

  /** Only a node of a known kind, within the depth limit, outside a cycle and readable has an export. */
  lemma {:induction false} NodeBlocks(o: Origin, depth: nat, active: set<nat>, node: Node)
    ensures depth > MAX_DEPTH ==> NoExport(o, depth, active, node)
    ensures Kind(node.inode.mode) == MODE_REGULAR && Content(o.v, o.sb, node.inode) == None ==>
      NoExport(o, depth, active, node)
    ensures Kind(node.inode.mode) == MODE_DIRECTORY && InodeKey(node.location) in active ==>
      NoExport(o, depth, active, node)
    ensures Kind(node.inode.mode) == MODE_DIRECTORY && Listing(o.v, o.sb, node, false) == None ==>
      NoExport(o, depth, active, node)
  {
    hide InodeAt, Grown, Listing, Content, InodeKey;
  }

  /** A chunk extends the bytes already written, or the whole file cannot be read. */
  lemma ChunkStep(v: Volume, sb: SuperBlock, inode: Inode, offset: nat, take: nat)
    requires WholeSectors(sb.zoneSize) && ReadOk(v, sb, inode, 0, offset) && offset + take <= inode.size
    ensures ReadOk(v, sb, inode, offset, take) ==>
      && ReadOk(v, sb, inode, 0, offset + take)
      && ReadBytes(v, sb, inode, 0, offset + take)
         == ReadBytes(v, sb, inode, 0, offset) + ReadBytes(v, sb, inode, offset, take)
    ensures !ReadOk(v, sb, inode, offset, take) ==> Content(v, sb, inode) == None
  {
    hide ReadOk, ReadBytes, WholeSectors;
    if ReadOk(v, sb, inode, offset, take) {
      ReadsJoin(v, sb, inode, 0, offset, take);
    } else if ReadOk(v, sb, inode, 0, inode.size) {
      ReadSplits(v, sb, inode, 0, inode.size, offset, take);
    }
  }

  lemma NothingRead(v: Volume, sb: SuperBlock, inode: Inode)
    ensures ReadOk(v, sb, inode, 0, 0) && ReadBytes(v, sb, inode, 0, 0) == []
  {
  }

  lemma NothingTouched(o: Origin, node: Node, key: HostPath, files: map<HostPath, seq<Byte>>)
    ensures OnlyDelivered(o, node, key, files, files)
  {
  }

  /** One file, written whole, or not left behind. */
  lemma FileDelivered(o: Origin, node: Node, key: HostPath, before: map<HostPath, seq<Byte>>, bytes: seq<Byte>)
    requires IsFile(o, node, bytes)
    ensures OnlyDelivered(o, node, key, before, before[key := bytes])
  {
    hide IsFile, Content;
    assert Leads(o, node, [], node);
  }

  lemma FileRemoved(o: Origin, node: Node, key: HostPath, before: map<HostPath, seq<Byte>>)
    ensures OnlyDelivered(o, node, key, before, before - {key})
  {
  }

  /** What is delivered from a child is delivered from its parent. */
  lemma ChildDelivers(o: Origin, node: Node, i: nat, child: Node, bytes: seq<Byte>)
    requires ChildAt(o, node, i) == Some(child) && DeliveredFrom(o, child, bytes)
    ensures DeliveredFrom(o, node, bytes)
  {
    hide ChildAt, IsFile;
    var path, target :| Leads(o, child, path, target) && IsFile(o, target, bytes);
    assert ([i] + path)[1..] == path;
    assert Leads(o, node, [i] + path, target);
  }

  /** The entries before have lost nothing; the next child changes only its own part. */
  lemma ChildOnlyDelivers(o: Origin, node: Node, key: HostPath, i: nat, child: Node, name: string,
                          a: map<HostPath, seq<Byte>>, b: map<HostPath, seq<Byte>>, c: map<HostPath, seq<Byte>>)
    requires OnlyDelivered(o, node, key, a, b) && a.Keys <= b.Keys
    requires ChildAt(o, node, i) == Some(child) && OnlyDelivered(o, child, key + [name], b, c)
    ensures OnlyDelivered(o, node, key, a, c)
  {
    hide ChildAt, DeliveredFrom;
    forall k | Below(key + [name], k) ensures Below(key, k) {
      assert key + [name] <= k;
      assert k[..|key|] == (key + [name])[..|key|];
    }
    forall k | k in c && Below(key, k) ensures (k in a && a[k] == c[k]) || DeliveredFrom(o, node, c[k]) {
      if Below(key + [name], k) {
        if !(k in b && b[k] == c[k]) {
          ChildDelivers(o, node, i, child, c[k]);
        }
      }
    }
  }

  /** A forest's counters, files and directories, added to what was there before. */
  ghost predicate Shipped(s0: Stats, files0: map<HostPath, seq<Byte>>, dirs0: set<HostPath>, f: Forest, key: HostPath,
                          s: Stats, files: map<HostPath, seq<Byte>>, dirs: set<HostPath>)
  {
    s == s0.Plus(CountIn(f)) && files == files0 + FilesIn(f, key) && dirs == dirs0 + DirectoriesIn(f, key)
  }

  lemma {:induction false} MissingStep(o: Origin, depth: nat, active: set<nat>, entries: seq<DirEntry>, i: nat,
                                       f: Forest)
    requires i < |entries| && Grown(o, depth, active, entries[..i], f)
    requires o.exact ==> InodeAt(o.v, o.sb, entries[i].inode) == None
    ensures Grown(o, depth, active, entries[..i + 1], Missing(f)) && HostsOf(Missing(f)) == HostsOf(f)
  {
    hide InodeAt;
    assert entries[..i + 1][..i] == entries[..i];
  }

  lemma {:induction false} MissingShipped(s0: Stats, files0: map<HostPath, seq<Byte>>, dirs0: set<HostPath>, f: Forest,
                                          key: HostPath,
                       s: Stats, files: map<HostPath, seq<Byte>>, dirs: set<HostPath>)
    requires Shipped(s0, files0, dirs0, f, key, s, files, dirs)
    ensures Shipped(s0, files0, dirs0, Missing(f), key, s.(skipped := s.skipped + 1), files, dirs)
  {
    hide FilesIn, DirectoriesIn, CountIn;
    MissingCounts(f);
    MissingFiles(f, key);
    MissingDirectories(f, key);
  }

  lemma {:induction false} MissingCounts(f: Forest)
    ensures CountIn(Missing(f)) == CountIn(f).Plus(Stats(0, 0, 0, 1))
  {
  }

  lemma {:induction false} MissingFiles(f: Forest, key: HostPath)
    ensures FilesIn(Missing(f), key) == FilesIn(f, key)
  {
  }

  lemma {:induction false} MissingDirectories(f: Forest, key: HostPath)
    ensures DirectoriesIn(Missing(f), key) == DirectoriesIn(f, key)
  {
  }

  lemma {:induction false} GrowStep(o: Origin, depth: nat, active: set<nat>, entries: seq<DirEntry>, i: nat, f: Forest,
                                    host: string, child: Node, t: Tree)
    requires i < |entries| && Grown(o, depth, active, entries[..i], f)
    requires InodeAt(o.v, o.sb, entries[i].inode) == Some(child) && Exported(o, depth + 1, active, child, t)
    requires host == Alias(entries[i].name, UpperSet(HostsOf(f)))
    ensures Grown(o, depth, active, entries[..i + 1], Grow(f, host, t))
    ensures UpperSet(HostsOf(Grow(f, host, t))) == UpperSet(HostsOf(f)) + {Uppercase(host)}
  {
    hide InodeAt, Alias, UpperSet, Uppercase;
    assert entries[..i + 1][..i] == entries[..i];
    UpperSetSnoc(HostsOf(f), host);
  }

  lemma {:induction false} GrowShipped(s0: Stats, files0: map<HostPath, seq<Byte>>, dirs0: set<HostPath>, f: Forest,
                                       key: HostPath,
                    s: Stats, files: map<HostPath, seq<Byte>>, dirs: set<HostPath>, host: string, t: Tree)
    requires Shipped(s0, files0, dirs0, f, key, s, files, dirs)
    ensures var below := key + [Uppercase(host)];
      Shipped(s0, files0, dirs0, Grow(f, host, t), key, s.Plus(Count(t)), files + FilesOf(t, below),
              dirs + DirectoriesOf(t, below))
  {
    hide Uppercase, FilesOf, DirectoriesOf, Count;
  }

  class Exporter {
    const reader: Reader
    const host: HostTree
    var stats: Stats
    /** The directories being exported right now, from the root of the export down. */
    var active: set<nat>

    constructor (reader: Reader, host: HostTree)
      ensures this.reader == reader && this.host == host && stats == Stats(0, 0, 0, 0) && active == {}
    {
      this.reader, this.host := reader, host;
      stats, active := Stats(0, 0, 0, 0), {};
    }

    ghost function Origins(): Origin
      reads reader, reader.volume
    {
      Origin(reader.V(), reader.probe.super, !reader.volume.device.flaky)
    }

    /** Neither the device nor the host fails on its own. */
    ghost predicate Sure()
      reads reader
    {
      !reader.volume.device.flaky && host.reliable
    }

    /** What was asked of the device since `before` lies in the extents the filesystem has joined. */
    ghost predicate Stays(before: seq<Access>)
      reads reader, reader.volume, reader.volume.device
    {
      Confined(reader.V(), FirstSubs(reader.probe.super.numSubs + 1), before, reader.volume.device.log)
    }

    lemma StillStays(before: seq<Access>, middle: seq<Access>, subs: set<nat>)
      requires Confined(reader.V(), FirstSubs(reader.probe.super.numSubs + 1), before, middle)
      requires Confined(reader.V(), subs, middle, reader.volume.device.log)
      requires subs <= FirstSubs(reader.probe.super.numSubs + 1)
      ensures Stays(before)
    {
      hide Confined, FirstSubs;
      var all := FirstSubs(reader.probe.super.numSubs + 1);
      ConfinedWidens(reader.V(), subs, all, middle, reader.volume.device.log);
      ConfinedTransitive(reader.V(), all, before, middle, reader.volume.device.log);
    }

    lemma EntryStays(before: seq<Access>, middle: seq<Access>, at: BlockInfo)
      requires Confined(reader.V(), FirstSubs(reader.probe.super.numSubs + 1), before, middle)
      requires Confined(reader.V(), JoinedSub(reader.probe.super, at.subpart), middle, reader.volume.device.log)
      ensures Stays(before)
    {
      hide Confined;
      StillStays(before, middle, JoinedSub(reader.probe.super, at.subpart));
    }

    lemma StaysStill()
      ensures Stays(reader.volume.device.log)
    {
      ConfinedReflexive(reader.V(), FirstSubs(reader.probe.super.numSubs + 1), reader.volume.device.log);
    }

    /** Copies one chunk to the end of the host file. */
    method CopyChunk(node: Node, destination: HostPath, offset: nat, take: nat, ghost files: map<HostPath, seq<Byte>>)
      returns (ok: bool)
      requires reader.Valid() && reader.probe.valid && WholeSectors(reader.probe.super.zoneSize)
      requires offset + take <= node.inode.size && ReadOk(reader.V(), reader.probe.super, node.inode, 0, offset)
      requires host.files
           == files[KeyOf(destination) := ReadBytes(reader.V(), reader.probe.super, node.inode, 0, offset)]
      modifies host`files, reader`failed, reader.volume.device`log
      ensures ok ==>
        && ReadOk(reader.V(), reader.probe.super, node.inode, 0, offset + take)
        && host.files
           == files[KeyOf(destination) := ReadBytes(reader.V(), reader.probe.super, node.inode, 0, offset + take)]
      ensures host.files - {KeyOf(destination)} == files - {KeyOf(destination)}
      ensures Stays(old(reader.volume.device.log))
      ensures Sure() && !ok ==> Content(reader.V(), reader.probe.super, node.inode) == None
    {
      hide ReadOk, ReadBytes, WholeSectors, ValidZoneSize, KeyOf, Confined, FirstSubs, Touched;
      ghost var v, sb := reader.V(), reader.probe.super;
      ChunkStep(v, sb, node.inode, offset, take);
      var chunk := new Byte[take];
      StaysStill();
      ok := reader.Read(node.inode, offset, chunk);
      assert reader.V() == v && reader.probe.super == sb;
      TouchedIsJoined(v, sb, node.inode, offset, offset + take);
      StillStays(old(reader.volume.device.log), old(reader.volume.device.log),
                 Touched(v, sb, node.inode, offset, offset + take));
      if ok {
        ok := host.Append(destination, chunk[..]);
      }
    }

    /** Writes the file in chunks; what is written is its whole content, and a failed file is removed. */
    method ExportFile(node: Node, destination: HostPath) returns (ok: bool)
      requires reader.Valid() && reader.probe.valid && destination != []
      modifies this`stats, host, reader`failed, reader.volume.device`log
      ensures Origins() == old(Origins()) && reader.Valid() && reader.probe.valid
      ensures ok ==>
        && Content(reader.V(), reader.probe.super, node.inode).Some?
        && (var bytes := Content(reader.V(), reader.probe.super, node.inode).value;
            && stats == old(stats).Plus(Stats(1, 0, |bytes|, 0))
            && host.files == old(host.files)[KeyOf(destination) := bytes]
            && host.directories == old(host.directories) + Ancestors(KeyOf(destination)[..|destination| - 1]))
      ensures !ok ==> host.files == old(host.files) || host.files == old(host.files) - {KeyOf(destination)}
      ensures Stays(old(reader.volume.device.log))
      ensures Sure() && !ok ==> Content(reader.V(), reader.probe.super, node.inode) == None
    {
      hide ReadOk, ReadBytes, WholeSectors, ValidZoneSize, KeyOf, Ancestors, Confined, FirstSubs;
      StaysStill();
      ghost var v, sb, files := reader.V(), reader.probe.super, host.files;
      ZoneInSectors(sb.zoneSize);
      ok := host.CreateDirectories(destination[..|destination| - 1]);
      ParentKey(destination);
      if !ok {
        return;
      }
      ok := host.Create(destination);
      if !ok {
        return;
      }
      var offset: nat := 0;
      NothingRead(v, sb, node.inode);
      while offset < node.inode.size
        invariant reader.V() == v && reader.probe.super == sb && reader.probe.valid
        invariant offset <= node.inode.size && ReadOk(v, sb, node.inode, 0, offset)
        invariant host.files == files[KeyOf(destination) := ReadBytes(v, sb, node.inode, 0, offset)]
        invariant host.directories == old(host.directories) + Ancestors(KeyOf(destination)[..|destination| - 1])
        invariant stats == old(stats).Plus(Stats(0, 0, offset, 0))
        invariant Stays(old(reader.volume.device.log))
      {
        ghost var log := reader.volume.device.log;
        var take := Min(CHUNK_SIZE, node.inode.size - offset);
        ok := CopyChunk(node, destination, offset, take, files);
        StillStays(old(reader.volume.device.log), log, FirstSubs(sb.numSubs + 1));
        if !ok {
          host.Remove(destination);
          assert host.files == files - {KeyOf(destination)};
          return;
        }
        offset := offset + take;
        stats := stats.(bytes := stats.bytes + take);
      }
      stats := stats.(files := stats.files + 1);
      ok := true;
      assert Content(v, sb, node.inode) == Some(host.files[KeyOf(destination)]);
    }

    /** Exports a node and everything below it; the active directories are afterwards what they were. */
    method ExportNode(node: Node, destination: HostPath, depth: nat) returns (ok: bool, ghost t: Tree)
      requires reader.Valid() && reader.probe.valid && destination != [] && depth <= MAX_DEPTH + 1
      modifies this, host, reader`failed, reader.volume.device`log
      ensures Origins() == old(Origins()) && reader.Valid() && reader.probe.valid
      ensures active == old(active)
      ensures ok ==>
        && Exported(Origins(), depth, active, node, t)
        && stats == old(stats).Plus(Count(t))
        && host.files == old(host.files) + FilesOf(t, KeyOf(destination))
        && host.directories == old(host.directories) + DirectoriesOf(t, KeyOf(destination))
      ensures OnlyDelivered(Origins(), node, KeyOf(destination), old(host.files), host.files)
      ensures Stays(old(reader.volume.device.log))
      ensures Sure() && !ok ==> NoExport(Origins(), depth, active, node)
      decreases MAX_DEPTH + 1 - depth, 2
    {
      hide ReadOk, ReadBytes, ValidZoneSize, KeyOf, Ancestors, Content, NoExport, Listing, InodeKey, Grown,
        DeliveredFrom, Confined, FirstSubs, OnlyDelivered, FilesIn, DirectoriesIn, CountIn;
      ghost var o := Origins();
      t := OtherTree(node);
      ok := false;
      StaysStill();
      NothingTouched(o, node, KeyOf(destination), host.files);
      NodeBlocks(o, depth, active, node);
      if depth > MAX_DEPTH {
        return;
      }
      if Kind(node.inode.mode) == MODE_REGULAR {
        FileRemoved(o, node, KeyOf(destination), host.files);
        ok := ExportFile(node, destination);
        if ok {
          t := FileTree(node, Content(o.v, o.sb, node.inode).value);
          FileDelivered(o, node, KeyOf(destination), old(host.files), t.bytes);
        }
        return;
      }
      if Kind(node.inode.mode) != MODE_DIRECTORY {
        stats := stats.(skipped := stats.skipped + 1);
        ok := true;
        return;
      }
      ok, t := ExportDirectory(node, destination, depth);
    }

    /** A directory is active exactly while its entries are exported. */
    method ExportDirectory(node: Node, destination: HostPath, depth: nat) returns (ok: bool, ghost t: Tree)
      requires reader.Valid() && reader.probe.valid && destination != [] && depth <= MAX_DEPTH
      requires Kind(node.inode.mode) == MODE_DIRECTORY
      modifies this, host, reader`failed, reader.volume.device`log
      ensures Origins() == old(Origins()) && reader.Valid() && reader.probe.valid
      ensures active == old(active)
      ensures ok ==>
        && Exported(Origins(), depth, active, node, t)
        && stats == old(stats).Plus(Count(t))
        && host.files == old(host.files) + FilesOf(t, KeyOf(destination))
        && host.directories == old(host.directories) + DirectoriesOf(t, KeyOf(destination))
      ensures OnlyDelivered(Origins(), node, KeyOf(destination), old(host.files), host.files)
      ensures Stays(old(reader.volume.device.log))
      ensures Sure() && !ok ==> NoExport(Origins(), depth, active, node)
      decreases MAX_DEPTH + 1 - depth, 1
    {
      hide ReadOk, ReadBytes, ValidZoneSize, KeyOf, Ancestors, Content, NoExport, NoForest, Listing, InodeKey, Grown,
        DeliveredFrom, Confined, FirstSubs, OnlyDelivered, FilesIn, DirectoriesIn, CountIn;
      ghost var o := Origins();
      t := OtherTree(node);
      ok := false;
      StaysStill();
      NothingTouched(o, node, KeyOf(destination), host.files);
      NodeBlocks(o, depth, active, node);
      var key := InodeKey(node.location);
      if key in active {
        return;
      }
      active := active + {key};
      ok := host.CreateDirectories(destination);
      if !ok {
        active := active - {key};
        return;
      }
      stats := stats.(directories := stats.directories + 1);
      var entries := ListDirectory(reader, node, false);
      assert Origins() == o;
      TouchedIsJoined(o.v, o.sb, node.inode, 0, node.inode.size);
      StillStays(old(reader.volume.device.log), old(reader.volume.device.log),
                 Touched(o.v, o.sb, node.inode, 0, node.inode.size));
      if reader.failed {
        active := active - {key};
        ok := false;
        return;
      }
      ghost var forest, log := Empty, reader.volume.device.log;
      ok, forest := ExportEntries(entries, destination, depth, node);
      StillStays(old(reader.volume.device.log), log, FirstSubs(o.sb.numSubs + 1));
      active := active - {key};
      if ok {
        t := DirTree(node, forest);
      } else if Sure() {
        ForestBlocks(o, depth, old(active), node);
      }
    }

    /** Exports the entries of a directory, each under the alias chosen after those before it. */
    method ExportEntries(entries: seq<DirEntry>, destination: HostPath, depth: nat, ghost node: Node)
      returns (ok: bool, ghost f: Forest)
      requires reader.Valid() && reader.probe.valid && destination != [] && depth <= MAX_DEPTH
      requires Listing(reader.V(), reader.probe.super, node, false) == Some(entries)
      modifies this, host, reader`failed, reader.volume.device`log
      ensures Origins() == old(Origins()) && reader.Valid() && reader.probe.valid
      ensures active == old(active)
      ensures ok ==>
        && Grown(Origins(), depth, active, entries, f)
        && Shipped(old(stats), old(host.files), old(host.directories), f, KeyOf(destination), stats, host.files,
                   host.directories)
      ensures OnlyDelivered(Origins(), node, KeyOf(destination), old(host.files), host.files)
      ensures Stays(old(reader.volume.device.log))
      ensures Sure() && !ok ==> NoForest(Origins(), depth, active, entries)
      decreases MAX_DEPTH + 1 - depth, 0
    {
      hide ReadOk, ReadBytes, ValidZoneSize, KeyOf, Ancestors, Content, NoExport, NoForest, InodeAt, Exported,
        UpperSet, Alias, DeliveredFrom, OnlyDelivered, Confined, FirstSubs, Listing, Grown, Shipped, HostsOf, FilesOf,
        DirectoriesOf, Count;
      ghost var o, key := Origins(), KeyOf(destination);
      f := Empty;
      var hostNames: set<string> := {};
      NothingShipped(o, depth, active, stats, host.files, host.directories, key);
      NothingTouched(o, node, key, host.files);
      StaysStill();
      assert entries[..0] == [];
      for i := 0 to |entries|
        invariant Origins() == o && reader.Valid() && reader.probe.valid && active == old(active)
        invariant Grown(o, depth, active, entries[..i], f)
        invariant hostNames == UpperSet(HostsOf(f))
        invariant Shipped(old(stats), old(host.files), old(host.directories), f, key, stats, host.files,
                          host.directories)
        invariant OnlyDelivered(o, node, key, old(host.files), host.files) && old(host.files).Keys <= host.files.Keys
        invariant Stays(old(reader.volume.device.log))
      {
        ghost var log := reader.volume.device.log;
        var child := reader.ReadInode(entries[i].inode);
        assert Origins() == o;
        EntryStays(old(reader.volume.device.log), log, entries[i].inode);
        ghost var s, files, dirs := stats, host.files, host.directories;
        if child.None? {
          MissingStep(o, depth, active, entries, i, f);
          MissingShipped(old(stats), old(host.files), old(host.directories), f, key, s, files, dirs);
          stats := stats.(skipped := stats.skipped + 1);
          f := Missing(f);
        } else {
          var hostName, claimed := ClaimAlias(entries[i].name, hostNames);
          hostNames := claimed;
          ChildKey(destination, hostName);
          ghost var t;
          log := reader.volume.device.log;
          ok, t := ExportNode(child.value, destination + [hostName], depth + 1);
          ChildOnlyDelivers(o, node, key, i, child.value, Uppercase(hostName), old(host.files), files, host.files);
          StillStays(old(reader.volume.device.log), log, FirstSubs(o.sb.numSubs + 1));
          if !ok {
            if Sure() {
              EntryBlocks(o, depth, active, entries, i);
            }
            return;
          }
          GrowStep(o, depth, active, entries, i, f, hostName, child.value, t);
          GrowShipped(old(stats), old(host.files), old(host.directories), f, key, s, files, dirs, hostName, t);
          f := Grow(f, hostName, t);
        }
      }
      assert entries[..|entries|] == entries;
      ok := true;
    }
  }

  lemma {:induction false} NothingShipped(o: Origin, depth: nat, active: set<nat>, s: Stats,
                                          files: map<HostPath, seq<Byte>>,
                                          dirs: set<HostPath>, key: HostPath)
    ensures Grown(o, depth, active, [], Empty) && UpperSet(HostsOf(Empty)) == {}
    ensures Shipped(s, files, dirs, Empty, key, s, files, dirs)
  {
  }

  lemma ChildKey(path: HostPath, name: string)
    ensures KeyOf(path + [name]) == KeyOf(path) + [Uppercase(name)]
  {
  }

  lemma ParentKey(path: HostPath)
    requires path != []
    ensures KeyOf(path[..|path| - 1]) == KeyOf(path)[..|path| - 1]
  {
  }

  /** The tree exports the node the path resolves to, and the counters and the host show exactly that tree. */
  ghost predicate Succeeded(o: Origin, path: string, key: HostPath, t: Tree, stats: Stats,
                            files0: map<HostPath, seq<Byte>>, files: map<HostPath, seq<Byte>>,
                            dirs0: set<HostPath>, dirs: set<HostPath>)
    requires key != []
  {
    && Resolve(FsOf(o.v, o.sb), path) == Some(t.node) && Exported(o, 0, {}, t.node, t)
    && stats == Count(t) && files == files0 + FilesOf(t, key) && dirs == dirs0 + DirectoriesOf(t, key)
  }

  /** The path denotes nothing, or something that cannot be exported whole. */
  ghost predicate Impossible(o: Origin, path: string) {
    match Resolve(FsOf(o.v, o.sb), path)
    case None => true
    case Some(node) => NoExport(o, 0, {}, node)
  }

  ghost function OriginOf(reader: Reader): Origin
    reads reader, reader.volume
  {
    Origin(reader.V(), reader.probe.super, !reader.volume.device.flaky)
  }

  /**
   * Exports what a path denotes. Success means a finite tree over the directory graph exists, the
   * counters are its counters and the host holds its files; on a device and a host that do not fail
   * by themselves, failure means no such tree exists.
   */
  method ExportToHost(reader: Reader, host: HostTree, path: string, destination: HostPath)
    returns (ok: bool, stats: Stats, ghost t: Option<Tree>)
    requires reader.Valid() && destination != []
    modifies host, reader`failed, reader.volume.device`log
    ensures OriginOf(reader) == old(OriginOf(reader)) && (ok ==> reader.probe.valid)
    ensures ok ==> t.Some? && Succeeded(OriginOf(reader), path, KeyOf(destination), t.value, stats,
                                        old(host.files), host.files, old(host.directories), host.directories)
    ensures match Resolve(FsOf(reader.V(), reader.probe.super), path)
      case None => host.files == old(host.files)
      case Some(node) => OnlyDelivered(OriginOf(reader), node, KeyOf(destination), old(host.files), host.files)
    ensures Confined(reader.V(), FirstSubs(reader.probe.super.numSubs + 1), old(reader.volume.device.log),
                     reader.volume.device.log)
    ensures !ok && !reader.volume.device.flaky && host.reliable && reader.probe.valid ==>
      Impossible(OriginOf(reader), path)
  {
    hide Resolve, KeyOf, FilesOf, DirectoriesOf, Count, Exported, NoExport, ValidZoneSize, FsOf, OnlyDelivered,
      Confined, FirstSubs;
    ghost var o := OriginOf(reader);
    ok, stats, t := false, Stats(0, 0, 0, 0), None;
    if Resolve(FsOf(o.v, o.sb), path).Some? {
      NothingTouched(o, Resolve(FsOf(o.v, o.sb), path).value, KeyOf(destination), host.files);
    }
    var node := ResolvePath(reader, path);
    assert OriginOf(reader) == o;
    if node.None? {
      return;
    }
    var context := new Exporter(reader, host);
    ghost var tree, log := OtherTree(node.value), reader.volume.device.log;
    ok, tree := context.ExportNode(node.value, destination, 0);
    assert OriginOf(reader) == o;
    ConfinedTransitive(o.v, FirstSubs(o.sb.numSubs + 1), old(reader.volume.device.log), log, reader.volume.device.log);
    stats, t := context.stats, Some(tree);
    ExportedNode(o, 0, {}, node.value, tree);
  }

  lemma {:induction false} ExportedNode(o: Origin, depth: nat, active: set<nat>, node: Node, t: Tree)
    ensures Exported(o, depth, active, node, t) ==> t.node == node
  {
  }
}
