/**
 * The session's metadata caches: `src/host/drive_session.cpp`. Every cached answer is what an
 * uncached resolution of its key would give.
 */
module DriveSession {
  import opened Bytes
  import opened Disk
  import opened ApaVolume
  import opened PfsFormat
  import opened PfsStream
  import opened PfsReader
  import opened PfsDirectory
  import opened Paths
  import opened PfsResolve
  import ApaLayout
  import ApaScan

  const MAX_PROBE_ENTRIES: nat := 256
  const MAX_BROWSE_ENTRIES: nat := 1024
  const MAX_STAT_ENTRIES: nat := 8192
  const MAX_NODE_ENTRIES: nat := 8192
  const MAX_HEADERS: nat := 65536
  const KEY_SEPARATOR: char := '\U{1F}'

  datatype SessionEntry = SessionEntry(name: string, inode: BlockInfo, mode: U16, size: U64, readable: bool) {
    predicate IsDirectory() { Kind(mode) == MODE_DIRECTORY }
    predicate IsRegular() { Kind(mode) == MODE_REGULAR }
  }

  // ---- what an uncached session answers ----

  /** The first main partition with an id. */
  function FindPartition(ps: seq<ApaScan.Partition>, id: string): Option<ApaScan.Partition> {
    if ps == [] then None
    else if !ps[0].IsSub() && ps[0].id == id then Some(ps[0])
    else FindPartition(ps[1..], id)
  }

  function VolumeOf(d: Disk, p: ApaScan.Partition): Volume {
    Volume(d, p.Extents())
  }

  /** The filesystem of a partition, when it is a PFS partition with an acceptable superblock. */
  function Mounted(d: Disk, ps: seq<ApaScan.Partition>, id: string): Option<Fs> {
    match FindPartition(ps, id)
    case None => None
    case Some(p) =>
      match ProbeAt(VolumeOf(d, p), p.kind, p.IsSub())
      case None => None
      case Some(sb) => Some(FsOf(VolumeOf(d, p), sb))
  }

  function NodeOf(d: Disk, ps: seq<ApaScan.Partition>, id: string, path: string): Option<Node> {
    match Mounted(d, ps, id)
    case None => None
    case Some(fs) => Resolve(fs, path)
  }

  function StatFromNode(path: string, node: Node): SessionEntry {
    SessionEntry(path, node.location, Kind(node.inode.mode), node.inode.size, true)
  }

  function StatOf(d: Disk, ps: seq<ApaScan.Partition>, id: string, path: string): Option<SessionEntry> {
    match NodeOf(d, ps, id, path)
    case None => None
    case Some(node) => Some(StatFromNode(Normalize(path), node))
  }

  /** One line of a listing, with the child's own metadata when its inode can be read. */
  function LineOf(fs: Fs, e: DirEntry): SessionEntry {
    match fs.inode(e.inode)
    case None => SessionEntry(e.name, e.inode, e.mode, 0, false)
    case Some(child) => SessionEntry(e.name, e.inode, Kind(child.inode.mode), child.inode.size, true)
  }

  function LinesOf(fs: Fs, es: seq<DirEntry>): seq<SessionEntry> {
    if es == [] then [] else LinesOf(fs, es[..|es| - 1]) + [LineOf(fs, es[|es| - 1])]
  }

  function BrowseOf(d: Disk, ps: seq<ApaScan.Partition>, id: string, path: string): Option<seq<SessionEntry>> {
    match (Mounted(d, ps, id), NodeOf(d, ps, id, path))
    case (Some(fs), Some(node)) =>
      if Kind(node.inode.mode) != MODE_DIRECTORY then None
      else
        (match fs.list(node, false)
         case None => None
         case Some(es) => Some(LinesOf(fs, es)))
    case _ => None
  }

  /** The part of a request for `n` bytes at `offset` that lies inside the file. */
  function ClampedLength(size: nat, offset: nat, n: nat): nat {
    if offset >= size then 0 else Min(n, size - offset)
  }

  /** What reading up to `n` bytes of a file at `offset` delivers. */
  function FileBytes(d: Disk, ps: seq<ApaScan.Partition>, id: string, path: string, offset: nat,
                     n: nat): Option<seq<Byte>> {
    match (FindPartition(ps, id), NodeOf(d, ps, id, path))
    case (Some(p), Some(node)) =>
      var take := ClampedLength(node.inode.size, offset, n);
      if Kind(node.inode.mode) != MODE_REGULAR then None
      else if take == 0 then Some([])
      else
        (match ProbeAt(VolumeOf(d, p), p.kind, p.IsSub())
         case None => None
         case Some(sb) =>
           if ReadOk(VolumeOf(d, p), sb, node.inode, offset, take)
           then Some(ReadBytes(VolumeOf(d, p), sb, node.inode, offset, take)) else None)
    case _ => None
  }

  // ---- keys ----

  function MakeKey(id: string, path: string): string {
    id + [KEY_SEPARATOR] + Normalize(path)
  }

  predicate CleanId(id: string) {
    KEY_SEPARATOR !in id
  }

  /** A key is read back at its first separator. */
  function KeyId(key: string): string {
    if key == "" || key[0] == KEY_SEPARATOR then "" else [key[0]] + KeyId(key[1..])
  }

  function KeyPath(key: string): string {
    if key == "" then "" else if key[0] == KEY_SEPARATOR then key[1..] else KeyPath(key[1..])
  }

  lemma {:induction false} KeyParts(id: string, rest: string)
    requires CleanId(id)
    ensures KeyId(id + [KEY_SEPARATOR] + rest) == id && KeyPath(id + [KEY_SEPARATOR] + rest) == rest
  {
    var key := id + [KEY_SEPARATOR] + rest;
    if id == "" {
      assert key[1..] == rest;
    } else {
      KeyParts(id[1..], rest);
      assert key[1..] == id[1..] + [KEY_SEPARATOR] + rest;
      assert id == [id[0]] + id[1..];
    }
  }

  /** For ids without the separator, two requests share a key exactly when they mean the same thing. */
  lemma {:induction false} KeysFaithful(id1: string, path1: string, id2: string, path2: string)
    requires CleanId(id1) && CleanId(id2)
    ensures MakeKey(id1, path1) == MakeKey(id2, path2) <==> id1 == id2 && Components(path1) == Components(path2)
  {
    hide Components, Normalize;
    KeyParts(id1, Normalize(path1));
    KeyParts(id2, Normalize(path2));
    NormalizeComplete(path1, path2);
  }

  /**
   * Exactly when requests for two different ids can share a key: the shorter id and the separator
   * begin the longer one, and what follows in it could begin a normal path.
   */
  lemma IdsCollideIff(id1: string, id2: string)
    requires id1 != id2 && |id1| <= |id2|
    ensures (exists path1, path2 :: MakeKey(id1, path1) == MakeKey(id2, path2))
       <==> id1 + [KEY_SEPARATOR] <= id2
            && Normalize(id2[|id1| + 1..] + [KEY_SEPARATOR]) == id2[|id1| + 1..] + [KEY_SEPARATOR]
  {
    hide Normalize;
    if id1 + [KEY_SEPARATOR] <= id2 {
      var x := id2[|id1| + 1..];
      if Normalize(x + [KEY_SEPARATOR]) == x + [KEY_SEPARATOR] {
        NothingNormal();
        assert id2 == id1 + [KEY_SEPARATOR] + x;
        assert MakeKey(id1, x + [KEY_SEPARATOR]) == MakeKey(id2, "");
      }
    }
    if path1, path2 :| MakeKey(id1, path1) == MakeKey(id2, path2) {
      CollisionShape(id1, id2, path1, path2);
    }
  }

  lemma CollisionShape(id1: string, id2: string, path1: string, path2: string)
    requires id1 != id2 && |id1| <= |id2| && MakeKey(id1, path1) == MakeKey(id2, path2)
    ensures id1 + [KEY_SEPARATOR] <= id2
    ensures Normalize(id2[|id1| + 1..] + [KEY_SEPARATOR]) == id2[|id1| + 1..] + [KEY_SEPARATOR]
  {
    hide Normalize;
    var n1, n2, key := Normalize(path1), Normalize(path2), MakeKey(id1, path1);
    assert key[..|id1|] == id1 && key[..|id2|] == id2;
    assert |id1| < |id2|;
    assert id2[..|id1|] == key[..|id1|];
    assert key[|id1|] == KEY_SEPARATOR == id2[|id1|];
    var x := id2[|id1| + 1..];
    assert key[|id1| + 1..] == n1;
    assert key[|id1| + 1..] == x + [KEY_SEPARATOR] + n2;
    NormalizeSound(path1);
    NormalPrefix(x + [KEY_SEPARATOR], n2);
  }

  lemma NothingNormal()
    ensures Normalize("") == ""
  {
  }

  /** Requests for one id share a key exactly when their paths have the same components. */
  lemma {:induction false} SameIdKeys(id: string, path1: string, path2: string)
    ensures MakeKey(id, path1) == MakeKey(id, path2) <==> Components(path1) == Components(path2)
  {
    hide Normalize, Components;
    NormalizeComplete(path1, path2);
    var prefix := id + [KEY_SEPARATOR];
    assert (prefix + Normalize(path1))[|prefix|..] == Normalize(path1);
    assert (prefix + Normalize(path2))[|prefix|..] == Normalize(path2);
  }

  /**
   * Ids that contain the separator can be confused: these two requests differ and share a key, and
   * there is a disk whose scan accepts a PFS partition of either name.
   */
  lemma SeparatorInIdCollides()
    ensures MakeKey("A" + [KEY_SEPARATOR] + "B", "C") == MakeKey("A", "B" + [KEY_SEPARATOR] + "C")
    ensures exists d, ps ::
      ApaScan.Accepted(d, ps, MAX_HEADERS) && PfsNamed(ps, "A") && PfsNamed(ps, "A" + [KEY_SEPARATOR] + "B")
  {
    hide Components, Join, ApaScan.Accepted;
    var word := "B" + [KEY_SEPARATOR] + "C";
    assert IsName("C") && IsName(word);
    OneComponent("C");
    OneComponent(word);
    OneJoined("C");
    OneJoined(word);
    assert "A" + [KEY_SEPARATOR] + "B" + [KEY_SEPARATOR] + "C" == "A" + [KEY_SEPARATOR] + word;
    SeparatorIdExists();
  }

  predicate PfsNamed(ps: seq<ApaScan.Partition>, id: string) {
    exists p :: p in ps && !p.IsSub() && p.kind == TYPE_PFS && p.id == id
  }

  lemma SeparatorIdExists()
    ensures exists d, ps ::
      ApaScan.Accepted(d, ps, MAX_HEADERS) && PfsNamed(ps, "A") && PfsNamed(ps, "A" + [KEY_SEPARATOR] + "B")
  {
    hide ApaScan.Accepted, ApaLayout.DiskOf;
    var l := ApaLayout.Plain(["A", "A" + [KEY_SEPARATOR] + "B"], TYPE_PFS);
    ApaLayout.PlainAccepted(["A", "A" + [KEY_SEPARATOR] + "B"], TYPE_PFS, MAX_HEADERS);
    var ps := ApaLayout.Listed(l);
    assert ps[0] in ps && ps[1] in ps;
  }

  lemma OneJoined(word: string)
    ensures Join([word]) == word
  {
  }

  // ---- when children may be cached under their names ----

  /** Names are pairwise different and cannot be taken apart. */
  predicate CleanListing(es: seq<DirEntry>) {
    && (forall i :: 0 <= i < |es| ==> IsName(es[i].name))
    && (forall i, j :: 0 <= i < j < |es| ==> es[i].name != es[j].name)
  }

  /** Partition ids and all reachable directories are free of ambiguous names. */
  ghost predicate CleanSource(d: Disk, ps: seq<ApaScan.Partition>) {
    && (forall p :: p in ps ==> CleanId(p.id))
    && (forall id, path :: CleanDirectory(d, ps, id, path))
  }

  predicate CleanDirectory(d: Disk, ps: seq<ApaScan.Partition>, id: string, path: string) {
    match (Mounted(d, ps, id), NodeOf(d, ps, id, path))
    case (Some(fs), Some(node)) => fs.list(node, true).Some? ==> CleanListing(fs.list(node, true).value)
    case _ => true
  }

  lemma {:induction false} FindFirst(es: seq<DirEntry>, k: nat)
    requires k < |es| && forall i :: 0 <= i < k ==> es[i].name != es[k].name
    ensures Find(es, es[k].name) == Some(es[k])
  {
    if k > 0 {
      FindFirst(es[1..], k - 1);
    }
  }

  lemma {:induction false} VisibleSubset(es: seq<DirEntry>, e: DirEntry)
    requires e in Visible(es, false)
    ensures e in es && e.name != "." && e.name != ".."
  {
    if es != [] && !(Shown(es[0], false) && e == es[0]) {
      VisibleSubset(es[1..], e);
    }
  }

  lemma {:induction false} LiveIsVisible(ds: seq<Dentry>)
    ensures Live(ds, false) == Visible(Live(ds, true), false)
  {
    if ds != [] {
      LiveIsVisible(ds[1..]);
      var all := Live(ds[1..], true);
      if IsLive(ds[0], true) {
        var e := EntryOf(ds[0]);
        assert ([e] + all)[1..] == all;
      } else {
        assert [] + all == all;
      }
    }
  }

  /** A listing without dot entries is the full listing with those removed. */
  lemma ListingDots(v: Volume, sb: SuperBlock, node: Node)
    ensures Listing(v, sb, node, false).Some? <==> Listing(v, sb, node, true).Some?
    ensures Listing(v, sb, node, true).Some? ==>
      Listing(v, sb, node, false).value == Visible(Listing(v, sb, node, true).value, false)
  {
    hide ReadOk, ReadBytes, Scan, Live, Visible;
    if Listing(v, sb, node, true).Some? {
      LiveIsVisible(Scan(ReadBytes(v, sb, node.inode, 0, node.inode.size), 0).value);
    }
  }

  /** A listed child of a clean directory is what its own path resolves to. */
  lemma ChildResolves(d: Disk, ps: seq<ApaScan.Partition>, id: string, path: string, fs: Fs, node: Node, e: DirEntry)
    requires CleanDirectory(d, ps, id, path)
    requires Mounted(d, ps, id) == Some(fs) && NodeOf(d, ps, id, path) == Some(node)
    requires fs.list(node, false).Some? && e in fs.list(node, false).value
    ensures IsName(e.name) && Normalize(ChildPath(path, e.name)) == ChildPath(path, e.name)
    ensures NodeOf(d, ps, id, ChildPath(path, e.name)) == fs.inode(e.inode)
  {
    hide Components, Normalize, ChildPath, Listing, InodeAt, ProbeAt, FindPartition, Descend, Find, Visible, IsName;
    var p := FindPartition(ps, id).value;
    var sb := ProbeAt(VolumeOf(d, p), p.kind, p.IsSub()).value;
    ListingDots(VolumeOf(d, p), sb, node);
    var all := fs.list(node, true).value;
    VisibleSubset(all, e);
    var k :| 0 <= k < |all| && all[k] == e;
    FindFirst(all, k);
    ChildComponents(path, e.name);
    DescendSnoc(fs, Components(path), e.name);
  }

  /**
   * For an entry whose name cannot be taken apart, caching it under its path is right exactly when
   * the first entry of that name leads to the same inode: duplicates are the only danger.
   */
  lemma {:induction false} ChildAgreesIffFirst(fs: Fs, parent: string, node: Node, all: seq<DirEntry>, e: DirEntry)
    requires Resolve(fs, parent) == Some(node) && fs.list(node, true) == Some(all)
    requires IsName(e.name) && e.name != "." && e in all
    ensures Find(all, e.name).Some?
    ensures Resolve(fs, ChildPath(parent, e.name)) == fs.inode(e.inode)
       <==> fs.inode(Find(all, e.name).value.inode) == fs.inode(e.inode)
  {
    hide Components, Normalize, ChildPath, Descend, Find, IsName;
    ChildComponents(parent, e.name);
    DescendSnoc(fs, Components(parent), e.name);
    FindSome(all, e);
  }

  lemma {:induction false} FindSome(es: seq<DirEntry>, e: DirEntry)
    requires e in es
    ensures Find(es, e.name).Some?
  {
    if es[0].name != e.name {
      FindSome(es[1..], e);
    }
  }

  /**
   * For any name at all, the path a child is cached under leads where the components of the name
   * lead from the parent. So the cached child is right exactly when that walk ends at its inode: for
   * a name without components when it is the parent itself, for a name with one (such as "a" or
   * "a/") when the first entry of that component leads to it.
   */
  lemma ChildAgreesIff(fs: Fs, parent: string, node: Node, e: DirEntry)
    requires Resolve(fs, parent) == Some(node)
    ensures Resolve(fs, ChildPath(parent, e.name)) == DescendFrom(fs, node, Components(e.name))
    ensures Components(e.name) == [] ==>
      (Resolve(fs, ChildPath(parent, e.name)) == fs.inode(e.inode) <==> fs.inode(e.inode) == Some(node))
    ensures |Components(e.name)| == 1 && Components(e.name)[0] != "." ==>
      (Resolve(fs, ChildPath(parent, e.name)) == fs.inode(e.inode)
       <==> fs.inode(e.inode) == StepInto(fs, node, Components(e.name)[0]))
  {
    hide Components, ChildPath, Descend, StepInto;
    ChildPathComponents(parent, e.name);
    DescendConcat(fs, Components(parent), Components(e.name));
  }

  /** A directory can hold any name the encoder accepts, alone in its sector. */
  lemma AloneOnDisk(e: DirEntry)
    requires Encodable(e) && e.name != "." && e.name != ".."
    ensures FitsSector([e])
    ensures forall dots :: Parse(EncodeDirectory([[e]]), dots) == Some([e])
  {
    hide EncodeEntry, EncodeSector, Parse;
    EncodedFields(e);
    assert [e][1..] == [];
    assert EncodeEntries([e]) == EncodeEntry(e);
    assert FitsSector([e]);
    forall dots ensures Parse(EncodeDirectory([[e]]), dots) == Some([e]) {
      ParseInvertsEncode([[e]], dots);
      assert [[e]][1..] == [] && [e] + [] == [e];
      assert Visible([e], dots) == [e];
    }
  }

  /**
   * On any volume: where a directory holds just an entry whose name a separator takes apart, the
   * child is listed and readable, and the path it is cached under does not resolve at all.
   */
  lemma SeparatorInNameDisagrees(v: Volume, sb: SuperBlock, parent: string, node: Node, e: DirEntry)
    requires Encodable(e) && FitsSector([e]) && !IsName(e.name) && Components(e.name) != []
    requires Components(e.name)[0] != "."
    requires Resolve(FsOf(v, sb), parent) == Some(node) && Kind(node.inode.mode) == MODE_DIRECTORY
    requires node.inode.size == SECTOR && ReadOk(v, sb, node.inode, 0, SECTOR)
    requires ReadBytes(v, sb, node.inode, 0, SECTOR) == EncodeDirectory([[e]])
    requires InodeAt(v, sb, e.inode).Some?
    ensures Listing(v, sb, node, false) == Some([e])
    ensures Resolve(FsOf(v, sb), ChildPath(parent, e.name)) == None
  {
    hide Components, ChildPath, Descend, Parse, ReadOk, ReadBytes, EncodeDirectory, FitsSector, Encodable, InodeAt,
      Resolve;
    var fs, parts := FsOf(v, sb), Components(e.name);
    AloneOnDisk(e);
    ChildAgreesIff(fs, parent, node, e);
    ComponentsAreNames(e.name);
    assert parts[0] in parts && parts[0] != e.name;
    assert [e][1..] == [];
    assert Find([e], parts[0]) == None;
    assert StepInto(fs, node, parts[0]) == None;
  }

  /** Such a directory: one file named "a/b". */
  lemma SeparatorNameExists()
    ensures var e := DirEntry("a/b", BlockInfo(1, 0, 1), MODE_REGULAR);
      && Encodable(e) && FitsSector([e]) && !IsName(e.name) && Components(e.name) == ["a", "b"]
  {
    var e := DirEntry("a/b", BlockInfo(1, 0, 1), MODE_REGULAR);
    assert IsName("a") && IsName("b");
    OneComponent("a");
    ComponentsAfterSlash("a", "b");
    assert "a" + "/" + "b" == "a/b";
    assert e.name[1] == '/';
    AloneOnDisk(e);
  }

  // ---- the caches ----

  /** Stores an entry; a full map first gives up an arbitrary other one. */
  method BoundedStore<V>(cache: map<string, V>, key: string, value: V, max: nat) returns (r: map<string, V>)
    requires max > 0
    ensures key in r && r[key] == value
    ensures forall k :: k in r && k != key ==> k in cache && r[k] == cache[k]
    ensures |cache| <= max ==> |r| <= max
    ensures if key in cache || |cache| < max then r == cache[key := value]
            else exists victim :: victim in cache && r == (cache - {victim})[key := value]
  {
    r := cache;
    if key !in r && |r| >= max && r != map[] {
      var victim :| victim in r;
      r := r - {victim};
      assert r.Keys == cache.Keys - {victim};
      assert |r.Keys| == |cache.Keys| - 1;
    }
    ghost var stored := r[key := value];
    assert stored.Keys == r.Keys + {key};
    r := r[key := value];
  }

  ghost predicate Holds<V>(cache: map<string, V>, key: string, value: V) {
    key in cache && cache[key] == value
  }

  ghost predicate NodesOk(d: Disk, ps: seq<ApaScan.Partition>, m: map<string, Node>) {
    forall k :: k in m ==> NodeOf(d, ps, KeyId(k), KeyPath(k)) == Some(m[k])
  }

  ghost predicate StatsOk(d: Disk, ps: seq<ApaScan.Partition>, m: map<string, SessionEntry>) {
    forall k :: k in m ==> StatOf(d, ps, KeyId(k), KeyPath(k)) == Some(m[k])
  }

  /** The listing, except that some children's inodes may not have been readable at the time. */
  ghost predicate Degraded(lines: seq<SessionEntry>, full: seq<SessionEntry>) {
    |lines| == |full| && forall i :: 0 <= i < |full| ==> lines[i] == full[i] || Unread(lines[i], full[i])
  }

  predicate Unread(line: SessionEntry, full: SessionEntry) {
    !line.readable && line.size == 0 && line.name == full.name && line.inode == full.inode
  }

  /** A listing is right but for unreadable children, and exactly right on a device that is not flaky. */
  ghost predicate ListingOk(lines: seq<SessionEntry>, full: Option<seq<SessionEntry>>, flaky: bool) {
    full.Some? && Degraded(lines, full.value) && (!flaky ==> lines == full.value)
  }

  ghost predicate BrowsesOk(d: Disk, ps: seq<ApaScan.Partition>, m: map<string, seq<SessionEntry>>, flaky: bool) {
    forall k :: k in m ==> ListingOk(m[k], BrowseOf(d, ps, KeyId(k), KeyPath(k)), flaky)
  }

  /** A cached probe is the probe of the partition the id finds. */
  ghost predicate ProbeOk(d: Disk, ps: seq<ApaScan.Partition>, id: string, r: ProbeResult, flaky: bool) {
    match FindPartition(ps, id)
    case None => false
    case Some(p) =>
      var expected := ProbeAt(VolumeOf(d, p), p.kind, p.IsSub());
      && (r.valid ==> expected == Some(r.super) && ValidZoneSize(r.super.zoneSize))
      && (!flaky ==> r.valid == expected.Some?)
  }

  ghost predicate ProbesOk(d: Disk, ps: seq<ApaScan.Partition>, m: map<string, ProbeResult>, flaky: bool) {
    forall id :: id in m ==> ProbeOk(d, ps, id, m[id], flaky)
  }

  lemma NothingCached(d: Disk, ps: seq<ApaScan.Partition>, flaky: bool)
    ensures ProbesOk(d, ps, map[], flaky) && NodesOk(d, ps, map[]) && StatsOk(d, ps, map[])
    ensures BrowsesOk(d, ps, map[], flaky)
  {
  }

  /** A request's key is read back as the request. */
  lemma KeyMeaning(d: Disk, ps: seq<ApaScan.Partition>, id: string, path: string)
    requires CleanId(id)
    ensures var key := MakeKey(id, Normalize(path));
      && NodeOf(d, ps, KeyId(key), KeyPath(key)) == NodeOf(d, ps, id, path)
      && StatOf(d, ps, KeyId(key), KeyPath(key)) == StatOf(d, ps, id, path)
      && BrowseOf(d, ps, KeyId(key), KeyPath(key)) == BrowseOf(d, ps, id, path)
  {
    hide Components, Mounted, KeyId, KeyPath, LinesOf, Resolve, Join, Normalize;
    NormalizeSound(path);
    KeyParts(id, Normalize(path));
    if Mounted(d, ps, id).Some? {
      ResolveNormalized(Mounted(d, ps, id).value, path);
    }
  }

  lemma {:induction false} FoundIsListed(ps: seq<ApaScan.Partition>, id: string)
    requires FindPartition(ps, id).Some?
    ensures var p := FindPartition(ps, id).value; p in ps && p.id == id && !p.IsSub()
  {
    if ps[0].IsSub() || ps[0].id != id {
      FoundIsListed(ps[1..], id);
    }
  }

  /** What a browse wants to remember about one child. */
  ghost predicate ChildrenOk(d: Disk, ps: seq<ApaScan.Partition>, nodes: seq<(string, Node)>,
                             stats: seq<(string, SessionEntry)>) {
    && (forall i :: 0 <= i < |nodes| ==> NodeOf(d, ps, KeyId(nodes[i].0), KeyPath(nodes[i].0)) == Some(nodes[i].1))
    && (forall i :: 0 <= i < |stats| ==> StatOf(d, ps, KeyId(stats[i].0), KeyPath(stats[i].0)) == Some(stats[i].1))
  }

  lemma ChildrenGrow(d: Disk, ps: seq<ApaScan.Partition>, nodes: seq<(string, Node)>,
                     stats: seq<(string, SessionEntry)>,
                     id: string, path: string, node: Node)
    requires ChildrenOk(d, ps, nodes, stats) && CleanId(id)
    requires NodeOf(d, ps, id, path) == Some(node)
    ensures var key := MakeKey(id, Normalize(path));
      ChildrenOk(d, ps, nodes + [(key, node)], stats + [(key, StatFromNode(Normalize(path), node))])
  {
    hide NodeOf, KeyId, KeyPath, Normalize, Components, MakeKey, Mounted;
    KeyMeaning(d, ps, id, path);
  }

  /** One more step of a session stays within the partition's extents. */
  lemma {:induction false} WithinMore(d: Disk, ps: seq<ApaScan.Partition>, id: string, v: Volume, subs: set<nat>,
                                     a: seq<Access>, b: seq<Access>, c: seq<Access>)
    requires FindPartition(ps, id).Some? && v == VolumeOf(d, FindPartition(ps, id).value)
    requires Within(d, ps, id, a, b) && Confined(v, subs, b, c)
    ensures Within(d, ps, id, a, c)
  {
    hide FindPartition, Confined, Within;
    WithinVolume(d, ps, id, v, subs, b, c);
    WithinTransitive(d, ps, id, a, b, c);
  }

  lemma AnySub(v: Volume, subs: set<nat>, a: seq<Access>, b: seq<Access>, c: seq<Access>)
    requires Confined(v, AllSubs(v), a, b) && Confined(v, subs, b, c)
    ensures Confined(v, AllSubs(v), a, c)
  {
    hide Confined;
    ConfinedWidens(v, subs, AllSubs(v), b, c);
    ConfinedTransitive(v, AllSubs(v), a, b, c);
  }

  lemma NothingDegraded(fs: Fs)
    ensures Degraded([], LinesOf(fs, []))
  {
  }

  lemma DegradedMore(lines: seq<SessionEntry>, full: seq<SessionEntry>, line: SessionEntry)
    requires Degraded(lines, full)
    ensures Degraded(lines + [line], full + [line])
    ensures forall other: SessionEntry :: Unread(other, line) ==> Degraded(lines + [other], full + [line])
  {
  }

  lemma NoChildren(d: Disk, ps: seq<ApaScan.Partition>)
    ensures ChildrenOk(d, ps, [], [])
  {
  }

  lemma LinesSnoc(fs: Fs, es: seq<DirEntry>, k: nat)
    requires k < |es|
    ensures LinesOf(fs, es[..k + 1]) == LinesOf(fs, es[..k]) + [LineOf(fs, es[k])]
  {
    assert es[..k + 1][..k] == es[..k];
  }

  /** Between two logs of the device, only requests inside the extents of the partition an id finds were added. */
  ghost predicate Within(d: Disk, ps: seq<ApaScan.Partition>, id: string, before: seq<Access>, after: seq<Access>) {
    match FindPartition(ps, id)
    case None => before == after
    case Some(p) => Confined(VolumeOf(d, p), AllSubs(VolumeOf(d, p)), before, after)
  }

  lemma WithinReflexive(d: Disk, ps: seq<ApaScan.Partition>, id: string, a: seq<Access>)
    ensures Within(d, ps, id, a, a)
  {
    hide FindPartition;
  }

  lemma WithinTransitive(d: Disk, ps: seq<ApaScan.Partition>, id: string, a: seq<Access>, b: seq<Access>,
                         c: seq<Access>)
    requires Within(d, ps, id, a, b) && Within(d, ps, id, b, c)
    ensures Within(d, ps, id, a, c)
  {
    hide FindPartition, Confined, AllSubs;
    match FindPartition(ps, id)
    case None =>
    case Some(p) => ConfinedTransitive(VolumeOf(d, p), AllSubs(VolumeOf(d, p)), a, b, c);
  }

  lemma {:induction false} WithinVolume(d: Disk, ps: seq<ApaScan.Partition>, id: string, v: Volume, subs: set<nat>,
                                        a: seq<Access>, b: seq<Access>)
    requires FindPartition(ps, id).Some? && v == VolumeOf(d, FindPartition(ps, id).value) && Confined(v, subs, a, b)
    ensures Within(d, ps, id, a, b)
  {
    hide FindPartition, Confined;
    ConfinedWidens(v, subs, AllSubs(v), a, b);
  }

  /** After an accepted scan, whatever the session asks for lies inside the device. */
  lemma SessionStaysOnDevice(d: Disk, ps: seq<ApaScan.Partition>, max: nat, id: string, before: seq<Access>,
                             after: seq<Access>)
    requires ApaScan.Accepted(d, ps, max)
    requires Within(d, ps, id, before, after)
    ensures ApaScan.OnDevice(d, before, after)
  {
    hide FindPartition, Confined, ApaScan.Accepted, AllSubs, ApaScan.OnDevice;
    match FindPartition(ps, id)
    case None => ApaScan.OnDeviceReflexive(d, before);
    case Some(p) =>
      FoundIsListed(ps, id);
      ApaScan.AcceptedReadsIsolate(d, ps, max, p, AllSubs(VolumeOf(d, p)), before, after);
  }

  class DriveSession {
    const device: BlockDevice
    var scan: ApaScan.ScanResult
    var failed: bool
    var probeCache: map<string, ProbeResult>
    var browseCache: map<string, seq<SessionEntry>>
    var statCache: map<string, SessionEntry>
    var nodeCache: map<string, Node>
    /** Whether a caller has used an id that contains the key separator since the last clear. */
    ghost var confused: bool

    /** Names and keys have been unambiguous so far. */
    ghost predicate Trusted()
      reads this
    {
      !confused && CleanSource(device.disk, scan.partitions)
    }

    /** Every map keeps its bound, and every entry is what an uncached session would answer. */
    ghost predicate Valid()
      reads this
    {
      var d, ps := device.disk, scan.partitions;
      && |probeCache| <= 256 && |browseCache| <= 1024 && |statCache| <= 8192 && |nodeCache| <= 8192
      && ProbesOk(d, ps, probeCache, device.flaky)
      && (Trusted() ==>
            NodesOk(d, ps, nodeCache) && StatsOk(d, ps, statCache) && BrowsesOk(d, ps, browseCache, device.flaky))
    }

    constructor (device: BlockDevice)
      ensures Valid() && this.device == device && !confused
    {
      this.device := device;
      scan := ApaScan.ScanResult(false, 0, [], []);
      failed := false;
      probeCache, browseCache, statCache, nodeCache := map[], map[], map[], map[];
      confused := false;
    }

    method ClearCaches()
      modifies this
      ensures Valid() && !confused && scan == old(scan) && failed == old(failed)
      ensures probeCache == map[] && browseCache == map[] && statCache == map[] && nodeCache == map[]
    {
      hide CleanSource, ProbesOk, NodesOk, StatsOk, BrowsesOk;
      NothingCached(device.disk, scan.partitions, device.flaky);
      probeCache, browseCache, statCache, nodeCache := map[], map[], map[], map[];
      confused := false;
    }

    /** Rescans the source; nothing remembered about the previous scan survives. */
    method Scan() returns (ok: bool)
      modifies this, device`log
      ensures Valid() && !confused
      ensures probeCache == map[] && browseCache == map[] && statCache == map[] && nodeCache == map[]
      ensures ApaScan.OnDevice(device.disk, old(device.log), device.log)
      ensures ok == !failed && ok == scan.Ok()
      ensures ok ==> ApaScan.Accepted(device.disk, scan.partitions, 65536)
      ensures !device.flaky && !ok ==> forall ps :: !ApaScan.Accepted(device.disk, ps, 65536)
    {
      hide CleanSource, ApaScan.OnDevice, ApaScan.Accepted, ApaScan.GoodChain, ApaScan.PartitionsOf, ApaScan.MbrOk,
        ProbesOk, NodesOk, StatsOk, BrowsesOk;
      ClearCaches();
      failed := false;
      ghost var chain;
      scan, chain := ApaScan.Scan(device, MAX_HEADERS);
      ok := scan.Ok();
      failed := !ok;
      NothingCached(device.disk, scan.partitions, device.flaky);
      ApaScan.AcceptedIff(device.disk, MAX_HEADERS);
    }

    /** The cached probe of a partition, or a fresh one that is then remembered. */
    method ProbeFor(id: string, p: ApaScan.Partition, volume: ApaVolume) returns (r: ProbeResult)
      requires Valid() && FindPartition(scan.partitions, id) == Some(p)
      requires volume.device == device && volume.extents == p.Extents()
      modifies this`probeCache, device`log
      ensures Valid()
      ensures ProbeOk(device.disk, scan.partitions, id, r, device.flaky)
      ensures Holds(probeCache, id, r)
      ensures id in old(probeCache) ==> r == old(probeCache)[id] && device.log == old(device.log)
      ensures Within(device.disk, scan.partitions, id, old(device.log), device.log)
    {
      hide Confined, Within, FindPartition, ProbeAt, ValidZoneSize, CleanSource, ProbeOk, Valid;
      WithinReflexive(device.disk, scan.partitions, id, device.log);
      var cached := FindProbe(id);
      if cached.Some? {
        return cached.value;
      }
      assert volume.Vol() == VolumeOf(device.disk, p);
      r := Probe(volume, p.kind, p.IsSub());
      WithinVolume(device.disk, scan.partitions, id, volume.Vol(), {0}, old(device.log), device.log);
      FreshProbeOk(device.disk, scan.partitions, id, p, r, device.flaky);
      StoreProbe(id, r);
    }

    method FindProbe(id: string) returns (r: Option<ProbeResult>)
      requires Valid()
      ensures r == if id in probeCache then Some(probeCache[id]) else None
      ensures r.Some? ==> ProbeOk(device.disk, scan.partitions, id, r.value, device.flaky)
    {
      hide ProbeOk, CleanSource, NodesOk, StatsOk, BrowsesOk;
      r := if id in probeCache then Some(probeCache[id]) else None;
    }

    method StoreProbe(id: string, r: ProbeResult)
      requires Valid() && ProbeOk(device.disk, scan.partitions, id, r, device.flaky)
      modifies this`probeCache
      ensures Valid() && Holds(probeCache, id, r)
    {
      hide ProbeOk, CleanSource, NodesOk, StatsOk, BrowsesOk;
      probeCache := BoundedStore(probeCache, id, r, MAX_PROBE_ENTRIES);
    }

    /** Opens a reader on a PFS partition; it is valid exactly when the partition is mounted. */
    method Open(id: string) returns (reader: Reader?)
      requires Valid()
      modifies this`probeCache, device`log
      ensures Valid()
      ensures reader != null ==>
        && fresh(reader) && fresh(reader.volume) && reader.volume.device == device
        && reader.Valid() && reader.probe.valid && FindPartition(scan.partitions, id).Some?
        && (var p := FindPartition(scan.partitions, id).value;
            && reader.V() == VolumeOf(device.disk, p)
            && ProbeAt(reader.V(), p.kind, p.IsSub()) == Some(reader.probe.super))
        && Mounted(device.disk, scan.partitions, id) == Some(FsOf(reader.V(), reader.probe.super))
      ensures reader == null && !device.flaky ==> Mounted(device.disk, scan.partitions, id) == None
      ensures Within(device.disk, scan.partitions, id, old(device.log), device.log)
    {
      hide Confined, Within, FindPartition, ProbeAt, ValidZoneSize, NodesOk, StatsOk, BrowsesOk, CleanSource, ProbesOk,
        InodeAt, Listing;
      WithinReflexive(device.disk, scan.partitions, id, device.log);
      var found := FindPartition(scan.partitions, id);
      if found.None? {
        return null;
      }
      var p := found.value;
      if p.kind != TYPE_PFS {
        ProbeNeedsPfs(VolumeOf(device.disk, p), p.kind, p.IsSub());
        return null;
      }
      var volume := new ApaVolume(device, p.start, p.length, p.subs);
      var probe := ProbeFor(id, p, volume);
      if !probe.valid {
        return null;
      }
      assert volume.Vol() == VolumeOf(device.disk, p);
      reader := new Reader(volume, probe);
    }

    ghost method NoteId(id: string)
      requires Valid()
      modifies this`confused
      ensures Valid() && confused == (old(confused) || !CleanId(id))
    {
      hide NodesOk, StatsOk, BrowsesOk, ProbesOk, CleanSource;
      confused := confused || !CleanId(id);
    }

    method FindBrowse(key: string) returns (r: Option<seq<SessionEntry>>)
      requires Valid()
      ensures r == if key in browseCache then Some(browseCache[key]) else None
      ensures r.Some? && Trusted()
        ==> ListingOk(r.value, BrowseOf(device.disk, scan.partitions, KeyId(key), KeyPath(key)), device.flaky)
    {
      hide BrowseOf, ListingOk, KeyId, KeyPath, CleanSource, NodesOk, StatsOk, ProbesOk;
      r := if key in browseCache then Some(browseCache[key]) else None;
    }

    method FindStat(key: string) returns (r: Option<SessionEntry>)
      requires Valid()
      ensures r == if key in statCache then Some(statCache[key]) else None
      ensures r.Some? && Trusted()
        ==> StatOf(device.disk, scan.partitions, KeyId(key), KeyPath(key)) == r
    {
      hide StatOf, KeyId, KeyPath, CleanSource, NodesOk, BrowsesOk, ProbesOk;
      r := if key in statCache then Some(statCache[key]) else None;
    }

    method FindNode(key: string) returns (r: Option<Node>)
      requires Valid()
      ensures r == if key in nodeCache then Some(nodeCache[key]) else None
      ensures r.Some? && Trusted()
        ==> NodeOf(device.disk, scan.partitions, KeyId(key), KeyPath(key)) == r
    {
      hide NodeOf, KeyId, KeyPath, CleanSource, StatsOk, BrowsesOk, ProbesOk;
      r := if key in nodeCache then Some(nodeCache[key]) else None;
    }

    method StoreBrowse(key: string, lines: seq<SessionEntry>)
      requires Valid()
      requires Trusted() ==>
        ListingOk(lines, BrowseOf(device.disk, scan.partitions, KeyId(key), KeyPath(key)), device.flaky)
      modifies this`browseCache
      ensures Valid() && Holds(browseCache, key, lines)
    {
      hide BrowseOf, ListingOk, KeyId, KeyPath, CleanSource, NodesOk, StatsOk, ProbesOk;
      browseCache := BoundedStore(browseCache, key, lines, MAX_BROWSE_ENTRIES);
    }

    method StoreStat(key: string, entry: SessionEntry)
      requires Valid()
      requires Trusted()
        ==> StatOf(device.disk, scan.partitions, KeyId(key), KeyPath(key)) == Some(entry)
      modifies this`statCache
      ensures Valid() && Holds(statCache, key, entry)
    {
      hide StatOf, KeyId, KeyPath, CleanSource, NodesOk, BrowsesOk, ProbesOk;
      statCache := BoundedStore(statCache, key, entry, MAX_STAT_ENTRIES);
    }

    method StoreNode(key: string, node: Node)
      requires Valid()
      requires Trusted()
        ==> NodeOf(device.disk, scan.partitions, KeyId(key), KeyPath(key)) == Some(node)
      modifies this`nodeCache
      ensures Valid() && Holds(nodeCache, key, node)
    {
      hide NodeOf, KeyId, KeyPath, CleanSource, StatsOk, BrowsesOk, ProbesOk;
      nodeCache := BoundedStore(nodeCache, key, node, MAX_NODE_ENTRIES);
    }

    /** Lists a directory, remembering it and the metadata of its children. */
    method Browse(id: string, path: string) returns (r: Option<seq<SessionEntry>>)
      requires Valid()
      modifies this, device`log
      ensures Valid() && scan == old(scan) && confused == (old(confused) || !CleanId(id))
      ensures !device.flaky && Trusted() ==> r == BrowseOf(device.disk, scan.partitions, id, path)
      ensures r.Some? && Trusted() ==>
        ListingOk(r.value, BrowseOf(device.disk, scan.partitions, id, path), device.flaky)
      ensures r.Some? ==> Holds(browseCache, MakeKey(id, Normalize(path)), r.value)
      ensures MakeKey(id, Normalize(path)) in old(browseCache) ==>
        r == Some(old(browseCache)[MakeKey(id, Normalize(path))]) && device.log == old(device.log)
      ensures Within(device.disk, scan.partitions, id, old(device.log), device.log)
    {
      hide Confined, Within, Degraded, NodeOf, StatOf, BrowseOf, Mounted, MakeKey, KeyId, KeyPath, Normalize,
        Components, CleanSource, Valid;
      NoteId(id);
      var normalized := NormalizeCachePath(path);
      var key := MakeKey(id, normalized);
      ghost var d, ps := device.disk, scan.partitions;
      NormalizeSound(path);
      if CleanId(id) {
        KeyMeaning(d, ps, id, path);
      }
      WithinReflexive(d, ps, id, device.log);
      r := FindBrowse(key);
      if r.None? {
        r := BrowseDisk(id, path, normalized, key);
      }
    }

    /** Lists a directory that is not remembered. */
    method BrowseDisk(id: string, path: string, normalized: string, key: string) returns (r: Option<seq<SessionEntry>>)
      requires Valid() && (Trusted() ==> CleanId(id))
      requires normalized == Normalize(path) && normalized == Normalize(normalized) && key == MakeKey(id, normalized)
      modifies this`probeCache, this`browseCache, this`nodeCache, this`statCache, device`log
      ensures Valid()
      ensures !device.flaky ==> r == BrowseOf(device.disk, scan.partitions, id, path)
      ensures r.Some? ==> ListingOk(r.value, BrowseOf(device.disk, scan.partitions, id, path), device.flaky)
      ensures r.Some? ==> Holds(browseCache, key, r.value)
      ensures Within(device.disk, scan.partitions, id, old(device.log), device.log)
    {
      hide Confined, Within, Degraded, NodeOf, StatOf, BrowseOf, Mounted, MakeKey, KeyId, KeyPath, Normalize,
        Components, FindPartition, ProbeOk, LinesOf, LineOf, Resolve, InodeAt, Listing, ValidZoneSize, CleanDirectory,
        ChildPath, IsName, CleanSource, Valid, ChildrenOk, ProbeAt, VolumeOf, StatFromNode, FirstSubs, AllSubs,
        Touched;
      ghost var d, ps := device.disk, scan.partitions;
      r := None;
      if CleanId(id) {
        KeyMeaning(d, ps, id, path);
      }
      var reader := Open(id);
      if reader == null {
        NothingMounted(d, ps, id, path);
        return;
      }
      ghost var fs, v, sb := Mounted(d, ps, id).value, reader.V(), reader.probe.super;
      FoundIsListed(ps, id);
      ghost var log := device.log;
      var node := ResolvePath(reader, normalized);
      WithinMore(d, ps, id, v, FirstSubs(sb.numSubs + 1), old(device.log), log, device.log);
      MountedNode(d, ps, id, path, fs);
      if node.None? || Kind(node.value.inode.mode) != MODE_DIRECTORY {
        return;
      }
      log := device.log;
      var entries := ListDirectory(reader, node.value, false);
      WithinMore(d, ps, id, v, Touched(v, sb, node.value.inode, 0, node.value.inode.size), old(device.log), log,
                 device.log);
      if reader.failed {
        return;
      }
      assert fs.list(node.value, false) == Some(entries);

      log := device.log;
      var lines, nodes, stats := ReadChildren(reader, id, path, normalized, node.value, entries, fs);
      WithinMore(d, ps, id, v, AllSubs(v), old(device.log), log, device.log);
      r := Some(lines);
      Remember(nodes, stats);
      StoreBrowse(key, lines);
    }

    /** Reads the inode of every entry of a directory: its listing lines, and what to remember. */
    method ReadChildren(reader: Reader, id: string, path: string, normalized: string, node: Node,
                        entries: seq<DirEntry>, ghost fs: Fs)
      returns (lines: seq<SessionEntry>, nodes: seq<(string, Node)>, stats: seq<(string, SessionEntry)>)
      requires reader.Valid() && reader.probe.valid && reader.volume.device == device
      requires fs == FsOf(reader.V(), reader.probe.super)
      requires normalized == Normalize(path) && normalized == Normalize(normalized)
      requires Mounted(device.disk, scan.partitions, id) == Some(fs)
      requires NodeOf(device.disk, scan.partitions, id, normalized) == Some(node)
      requires fs.list(node, false) == Some(entries)
      requires Trusted() ==> CleanId(id)
      modifies reader`failed, device`log
      ensures Degraded(lines, LinesOf(fs, entries)) && (!device.flaky ==> lines == LinesOf(fs, entries))
      ensures Confined(reader.V(), AllSubs(reader.V()), old(device.log), device.log)
      ensures reader.V() == old(reader.V()) && reader.probe == old(reader.probe)
      ensures Trusted() ==> ChildrenOk(device.disk, scan.partitions, nodes, stats)
    {
      hide NodeOf, StatOf, BrowseOf, Mounted, MakeKey, KeyId, KeyPath, Normalize, Components, FindPartition, ProbeOk,
        LinesOf, LineOf, Resolve, InodeAt, Listing, ValidZoneSize, CleanDirectory, ChildPath, IsName, CleanSource,
        ChildrenOk, StatFromNode, Confined, Degraded, AllSubs;
      ghost var v, sb := reader.V(), reader.probe.super;
      ConfinedReflexive(v, AllSubs(v), device.log);
      NothingDegraded(fs);
      ghost var d, ps, clean := device.disk, scan.partitions, Trusted();
      var key := MakeKey(id, normalized);
      lines := [];
      nodes, stats := [(key, node)], [(key, StatFromNode(normalized, node))];
      NoChildren(d, ps);
      if clean {
        ChildrenGrow(d, ps, [], [], id, normalized, node);
        assert [] + nodes == nodes && [] + stats == stats;
      }
      assert entries[..0] == [];
      for i := 0 to |entries|
        invariant reader.Valid() && reader.probe.valid && fs == FsOf(reader.V(), reader.probe.super)
        invariant clean == Trusted() && (clean ==> ChildrenOk(d, ps, nodes, stats))
        invariant reader.V() == v && reader.probe == old(reader.probe)
        invariant Confined(v, AllSubs(v), old(device.log), device.log)
        invariant Degraded(lines, LinesOf(fs, entries[..i])) && (!device.flaky ==> lines == LinesOf(fs, entries[..i]))
      {
        var entry := entries[i];
        LinesSnoc(fs, entries, i);
        ghost var log := device.log;
        var child := reader.ReadInode(entry.inode);
        AnySub(v, JoinedSub(sb, entry.inode.subpart), old(device.log), log, device.log);
        DegradedMore(lines, LinesOf(fs, entries[..i]), LineOf(fs, entry));
        LineCases(fs, entry);
        if child.None? {
          lines := lines + [SessionEntry(entry.name, entry.inode, entry.mode, 0, false)];
        } else {
          var inode := child.value.inode;
          lines := lines + [SessionEntry(entry.name, entry.inode, Kind(inode.mode), inode.size, true)];
          var childName := ChildPath(normalized, entry.name);
          var childNormal := NormalizeCachePath(childName);
          var childKey := MakeKey(id, childNormal);
          if clean {
            CleanAt(d, ps, id, normalized);
            ChildResolves(d, ps, id, normalized, fs, node, entry);
            ChildrenGrow(d, ps, nodes, stats, id, childName, child.value);
          }
          nodes := nodes + [(childKey, child.value)];
          stats := stats + [(childKey, StatFromNode(childName, child.value))];
        }
      }
      assert entries[..|entries|] == entries;
    }

    /** Stores the nodes and stats a browse has found. */
    method Remember(nodes: seq<(string, Node)>, stats: seq<(string, SessionEntry)>)
      requires Valid()
      requires Trusted() ==> ChildrenOk(device.disk, scan.partitions, nodes, stats)
      modifies this`nodeCache, this`statCache
      ensures Valid()
    {
      hide NodeOf, StatOf, KeyId, KeyPath, CleanSource, Valid;
      for i := 0 to |nodes|
        invariant Valid()
      {
        StoreNode(nodes[i].0, nodes[i].1);
      }
      for i := 0 to |stats|
        invariant Valid()
      {
        StoreStat(stats[i].0, stats[i].1);
      }
    }

    /** What a path denotes: remembered as such or as a node, or resolved and then remembered. */
    method Stat(id: string, path: string) returns (r: Option<SessionEntry>)
      requires Valid()
      modifies this, device`log
      ensures Valid() && scan == old(scan) && confused == (old(confused) || !CleanId(id))
      ensures (r.Some? || !device.flaky) && Trusted() ==> r == StatOf(device.disk, scan.partitions, id, path)
      ensures r.Some? ==> Holds(statCache, MakeKey(id, Normalize(path)), r.value)
      ensures MakeKey(id, Normalize(path)) in old(statCache) ==>
        r == Some(old(statCache)[MakeKey(id, Normalize(path))]) && device.log == old(device.log)
      ensures MakeKey(id, Normalize(path)) in old(nodeCache) ==> device.log == old(device.log)
      ensures Within(device.disk, scan.partitions, id, old(device.log), device.log)
    {
      hide Confined, Within, NodeOf, StatOf, StatFromNode, MakeKey, KeyId, KeyPath, Normalize, Components,
        FindPartition, ProbeOk, Mounted, ProbeAt, VolumeOf, Resolve, InodeAt, Listing, ValidZoneSize, CleanSource,
        Valid;
      NoteId(id);
      var normalized := NormalizeCachePath(path);
      var key := MakeKey(id, normalized);
      ghost var d, ps := device.disk, scan.partitions;
      NormalizeSound(path);
      if CleanId(id) {
        KeyMeaning(d, ps, id, path);
      }
      StatMeaning(d, ps, id, path);
      WithinReflexive(d, ps, id, device.log);
      r := FindStat(key);
      if r.Some? {
        return;
      }
      var cached := FindNode(key);
      if cached.Some? {
        var entry := StatFromNode(normalized, cached.value);
        StoreStat(key, entry);
        return Some(entry);
      }
      var reader := Open(id);
      if reader == null {
        NothingMounted(d, ps, id, path);
        return;
      }
      FoundIsListed(ps, id);
      MountedNode(d, ps, id, path, Mounted(d, ps, id).value);
      ghost var v, sb, log := reader.V(), reader.probe.super, device.log;
      var node := ResolvePath(reader, normalized);
      WithinMore(d, ps, id, v, FirstSubs(sb.numSubs + 1), old(device.log), log, device.log);
      if node.None? {
        return;
      }
      var entry := StatFromNode(normalized, node.value);
      StoreNode(key, node.value);
      StoreStat(key, entry);
      r := Some(entry);
    }

    /** The node at a path: remembered, or resolved and then remembered. */
    method NodeAt(reader: Reader, id: string, path: string, normalized: string) returns (r: Option<Node>)
      requires Valid() && (Trusted() ==> CleanId(id))
      requires reader.Valid() && reader.probe.valid && reader.volume.device == device
      requires Mounted(device.disk, scan.partitions, id) == Some(FsOf(reader.V(), reader.probe.super))
      requires normalized == Normalize(path) && normalized == Normalize(normalized)
      modifies this`nodeCache, this`statCache, reader`failed, device`log
      ensures Valid()
      ensures (r.Some? || !device.flaky) && Trusted() ==> r == NodeOf(device.disk, scan.partitions, id, path)
      ensures r.Some? ==> Holds(nodeCache, MakeKey(id, normalized), r.value)
      ensures MakeKey(id, normalized) in old(nodeCache) ==> device.log == old(device.log)
      ensures Confined(reader.V(), FirstSubs(reader.probe.super.numSubs + 1), old(device.log), device.log)
      ensures reader.V() == old(reader.V()) && reader.probe == old(reader.probe)
    {
      hide Confined, FirstSubs, NodeOf, StatOf, MakeKey, KeyId, KeyPath, Normalize, Components, Mounted, Resolve,
        InodeAt, Listing, ValidZoneSize, CleanSource, Valid;
      ghost var d, ps := device.disk, scan.partitions;
      var key := MakeKey(id, normalized);
      if CleanId(id) {
        KeyMeaning(d, ps, id, path);
      }
      ConfinedReflexive(reader.V(), FirstSubs(reader.probe.super.numSubs + 1), device.log);
      r := FindNode(key);
      if r.Some? {
        return;
      }
      MountedNode(d, ps, id, path, Mounted(d, ps, id).value);
      r := ResolvePath(reader, normalized);
      if r.Some? {
        StatMeaning(d, ps, id, path);
        StoreNode(key, r.value);
        StoreStat(key, StatFromNode(normalized, r.value));
      }
    }

    /** The part of the request inside the file, read in one call. */
    method ReadClamped(reader: Reader, inode: Inode, offset: nat, out: array<Byte>) returns (ok: bool, bytesRead: nat)
      requires reader.Valid() && reader.probe.valid && reader.volume.device == device
      modifies reader`failed, device`log, out
      ensures bytesRead <= out.Length
      ensures Confined(reader.V(), AllSubs(reader.V()), old(device.log), device.log)
      ensures ok ==> bytesRead == ClampedLength(inode.size, offset, out.Length)
      ensures ok && bytesRead > 0 ==>
        && ReadOk(reader.V(), reader.probe.super, inode, offset, bytesRead)
        && out[..bytesRead] == ReadBytes(reader.V(), reader.probe.super, inode, offset, bytesRead)
      ensures !device.flaky && !ok ==>
        var take := ClampedLength(inode.size, offset, out.Length);
        take > 0 && !ReadOk(reader.V(), reader.probe.super, inode, offset, take)
    {
      hide ReadOk, ReadBytes, ValidZoneSize, Confined, AllSubs;
      ghost var v, sb := reader.V(), reader.probe.super;
      ConfinedReflexive(v, AllSubs(v), device.log);
      if offset >= inode.size || out.Length == 0 {
        return true, 0;
      }
      var take := Min(out.Length, inode.size - offset);
      var buffer := new Byte[take];
      ok := reader.Read(inode, offset, buffer);
      assert reader.V() == v && reader.probe.super == sb;
      AnySub(v, Touched(v, sb, inode, offset, offset + take), old(device.log), old(device.log), device.log);
      bytesRead := 0;
      if ok {
        bytesRead := take;
        forall i | 0 <= i < take {
          out[i] := buffer[i];
        }
        assert out[..take] == buffer[..];
      }
    }

    /** Reads up to `out.Length` bytes of a regular file, clamped to its end. */
    method ReadFile(id: string, path: string, offset: nat, out: array<Byte>) returns (ok: bool, bytesRead: nat)
      requires Valid()
      modifies this, device`log, out
      ensures Valid() && scan == old(scan) && confused == (old(confused) || !CleanId(id))
      ensures bytesRead <= out.Length
      ensures ok && Trusted() ==>
        FileBytes(device.disk, scan.partitions, id, path, offset, out.Length) == Some(out[..bytesRead])
      ensures !device.flaky && Trusted() ==>
        ok == FileBytes(device.disk, scan.partitions, id, path, offset, out.Length).Some?
      ensures Within(device.disk, scan.partitions, id, old(device.log), device.log)
    {
      hide Holds, Confined, Within, FirstSubs, AllSubs, NodeOf, StatOf, FileBytes, Normalize, Components, FindPartition,
        Mounted, ProbeAt, Resolve, InodeAt, Listing, ValidZoneSize, CleanSource, Valid, ReadOk, ReadBytes, VolumeOf;
      NoteId(id);
      ghost var d, ps := device.disk, scan.partitions;
      ok, bytesRead := false, 0;
      var reader := Open(id);
      NothingMounted(d, ps, id, path);
      NoFile(d, ps, id, path, offset, out.Length);
      if reader == null {
        return;
      }
      var normalized := NormalizeCachePath(path);
      NormalizeSound(path);
      ghost var v, sb := reader.V(), reader.probe.super;
      FileBytesOfNode(d, ps, id, path, offset, out.Length, FindPartition(ps, id).value, sb);
      ghost var log := device.log;
      var node := NodeAt(reader, id, path, normalized);
      assert reader.V() == v && reader.probe.super == sb;
      WithinMore(d, ps, id, v, FirstSubs(sb.numSubs + 1), old(device.log), log, device.log);
      if node.None? || Kind(node.value.inode.mode) != MODE_REGULAR {
        return;
      }
      log := device.log;
      ok, bytesRead := ReadClamped(reader, node.value.inode, offset, out);
      assert reader.V() == v && reader.probe.super == sb;
      WithinMore(d, ps, id, v, AllSubs(v), old(device.log), log, device.log);
      assert out[..0] == [];
    }
  }

  // ---- whole sessions ----

  datatype Request =
    | List(id: string, path: string)
    | Look(id: string, path: string)
    | Fetch(id: string, path: string, offset: nat, length: nat)
    | Forget
    | Rescan
  {
    /** The request is about a partition, and neither clears nor scans. */
    predicate Asks() {
      !Forget? && !Rescan?
    }
  }

  datatype Answer =
    | Lines(lines: Option<seq<SessionEntry>>)
    | Entry(entry: Option<SessionEntry>)
    | Bytes(bytes: Option<seq<Byte>>)
    | Forgotten
    | Scanned(ok: bool)

  /** What a session without caches answers. */
  function Uncached(d: Disk, ps: seq<ApaScan.Partition>, q: Request): Answer
    requires !q.Rescan?
  {
    match q
    case List(id, path) => Lines(BrowseOf(d, ps, id, path))
    case Look(id, path) => Entry(StatOf(d, ps, id, path))
    case Fetch(id, path, offset, length) => Bytes(FileBytes(d, ps, id, path, offset, length))
    case Forget => Forgotten
  }

  /** An id with the separator is asked about; a clear or a scan removes what it may have left behind. */
  predicate Confuses(confused: bool, q: Request) {
    q.Asks() && (confused || !CleanId(q.id))
  }

  predicate ConfusedBy(confused: bool, qs: seq<Request>) {
    if qs == [] then confused else Confuses(ConfusedBy(confused, qs[..|qs| - 1]), qs[|qs| - 1])
  }

  /**
   * The uncached answer; a flaky device may fail instead, or leave children of a listing unread,
   * but never gives another answer. A scan that succeeds has found an acceptable chain, and one that
   * fails on a steady device shows that there is none.
   */
  ghost predicate AnswerOk(d: Disk, ps: seq<ApaScan.Partition>, q: Request, a: Answer, flaky: bool) {
    if q.Rescan? then
      && a.Scanned? && (a.ok ==> ApaScan.Accepted(d, ps, MAX_HEADERS))
      && (!flaky && !a.ok ==> forall other :: !ApaScan.Accepted(d, other, MAX_HEADERS))
    else
      || a == Uncached(d, ps, q)
      || (flaky && match q
          case List(id, path) =>
            a.Lines? && (a.lines.Some? ==> ListingOk(a.lines.value, BrowseOf(d, ps, id, path), true))
          case Look(_, _) => a == Entry(None)
          case Fetch(_, _, _, _) => a == Bytes(None)
          case Forget => false)
  }

  /** The partitions a session starts with, and those in force after each request: only scans change them. */
  ghost predicate InForce(qs: seq<Request>, current: seq<seq<ApaScan.Partition>>) {
    && |current| == |qs| + 1
    && forall i :: 0 <= i < |qs| && !qs[i].Rescan? ==> current[i + 1] == current[i]
  }

  lemma InForceSnoc(qs: seq<Request>, current: seq<seq<ApaScan.Partition>>, q: Request, now: seq<ApaScan.Partition>)
    requires InForce(qs, current) && (!q.Rescan? ==> now == current[|qs|])
    ensures InForce(qs + [q], current + [now])
  {
    var all, next := qs + [q], current + [now];
    assert all[|qs|] == q && next[|qs|] == current[|qs|] && next[|qs| + 1] == now;
    forall i | 0 <= i < |all| && !all[i].Rescan? ensures next[i + 1] == next[i] {
      if i < |qs| {
        assert all[i] == qs[i] && next[i] == current[i] && next[i + 1] == current[i + 1];
      }
    }
  }

  /** The answer is right, if names and keys are unambiguous. */
  ghost predicate Answered(d: Disk, confused: bool, ps: seq<ApaScan.Partition>, q: Request, a: Answer, flaky: bool) {
    q.Rescan? || (CleanSource(d, ps) && !confused) ==> AnswerOk(d, ps, q, a, flaky)
  }

  /** Between the logs only requests inside the device were added, if each scan in force was accepted. */
  ghost predicate Isolated(d: Disk, qs: seq<Request>, current: seq<seq<ApaScan.Partition>>, before: seq<Access>,
                           after: seq<Access>)
    requires |current| == |qs| + 1
  {
    (forall i :: 0 <= i < |qs| && qs[i].Asks() ==> ApaScan.Accepted(d, current[i + 1], MAX_HEADERS)) ==>
      ApaScan.OnDevice(d, before, after)
  }

  lemma IsolatedSnoc(d: Disk, qs: seq<Request>, current: seq<seq<ApaScan.Partition>>, q: Request,
                     now: seq<ApaScan.Partition>, a: seq<Access>, b: seq<Access>, c: seq<Access>)
    requires |current| == |qs| + 1 && Isolated(d, qs, current, a, b)
    requires if q.Asks() then Within(d, now, q.id, b, c) else ApaScan.OnDevice(d, b, c)
    ensures Isolated(d, qs + [q], current + [now], a, c)
  {
    hide ApaScan.Accepted, ApaScan.OnDevice, Within;
    var all, next := qs + [q], current + [now];
    if forall i :: 0 <= i < |all| && all[i].Asks() ==> ApaScan.Accepted(d, next[i + 1], MAX_HEADERS) {
      forall i | 0 <= i < |qs| && qs[i].Asks() ensures ApaScan.Accepted(d, current[i + 1], MAX_HEADERS) {
        assert all[i] == qs[i] && next[i + 1] == current[i + 1];
      }
      if q.Asks() {
        assert all[|qs|] == q && next[|qs| + 1] == now;
        SessionStaysOnDevice(d, now, MAX_HEADERS, q.id, b, c);
      }
      ApaScan.OnDeviceTransitive(d, a, b, c);
    }
  }

  /** A run of a session: what each request was answered, over what partitions, and what was asked of the device. */
  ghost predicate Ran(d: Disk, flaky: bool, confused: bool, qs: seq<Request>, answers: seq<Answer>,
                      current: seq<seq<ApaScan.Partition>>, before: seq<Access>, after: seq<Access>)
  {
    && |answers| == |qs| && InForce(qs, current)
    && (forall k :: 0 <= k < |qs| ==>
          Answered(d, ConfusedBy(confused, qs[..k + 1]), current[k + 1], qs[k], answers[k], flaky))
    && Isolated(d, qs, current, before, after)
  }

  lemma RanNothing(d: Disk, flaky: bool, confused: bool, ps: seq<ApaScan.Partition>, log: seq<Access>)
    ensures Ran(d, flaky, confused, [], [], [ps], log, log)
  {
    ApaScan.OnDeviceReflexive(d, log);
  }

  lemma {:induction false} RanOn(d: Disk, flaky: bool, confused: bool, qs: seq<Request>,
                                answers: seq<Answer>, current: seq<seq<ApaScan.Partition>>, q: Request, a: Answer,
              now: seq<ApaScan.Partition>, before: seq<Access>, middle: seq<Access>, after: seq<Access>)
    requires Ran(d, flaky, confused, qs, answers, current, before, middle)
    requires !q.Rescan? ==> now == current[|qs|]
    requires Answered(d, ConfusedBy(confused, qs + [q]), now, q, a, flaky)
    requires if q.Asks() then Within(d, now, q.id, middle, after) else ApaScan.OnDevice(d, middle, after)
    ensures Ran(d, flaky, confused, qs + [q], answers + [a], current + [now], before, after)
  {
    hide Answered, Isolated, Within, ApaScan.OnDevice, ConfusedBy;
    var all, next := qs + [q], current + [now];
    IsolatedSnoc(d, qs, current, q, now, before, middle, after);
    InForceSnoc(qs, current, q, now);
    forall k | 0 <= k < |all|
      ensures Answered(d, ConfusedBy(confused, all[..k + 1]), next[k + 1], all[k], (answers + [a])[k], flaky)
    {
      assert all[..k + 1] == if k < |qs| then qs[..k + 1] else all;
    }
  }

  /** All accepted scans of a run agree. */
  lemma ScansAgree(d: Disk, flaky: bool, confused: bool, qs: seq<Request>,
                   answers: seq<Answer>, current: seq<seq<ApaScan.Partition>>, before: seq<Access>, after: seq<Access>,
                   i: nat, j: nat)
    requires Ran(d, flaky, confused, qs, answers, current, before, after)
    requires i < |qs| && qs[i].Rescan? && answers[i] == Scanned(true)
    requires j < |qs| && qs[j].Rescan? && answers[j] == Scanned(true)
    ensures current[i + 1] == current[j + 1] && ApaScan.Accepted(d, current[i + 1], MAX_HEADERS)
  {
    hide Isolated, ApaScan.Accepted;
    ApaScan.AcceptedUnique(d, current[i + 1], current[j + 1], MAX_HEADERS);
  }

  /**
   * Any run of a session: scans, listings, stats, reads and clears in any order, with whatever
   * evictions they cause. Every answer is the uncached one over the partitions of the latest scan,
   * as long as these are unambiguous and no ambiguous id was used since the last clear or scan, and
   * nothing outside the device is asked for while the scans were accepted.
   */
  method RunSession(session: DriveSession, requests: seq<Request>)
    returns (answers: seq<Answer>, ghost current: seq<seq<ApaScan.Partition>>)
    requires session.Valid()
    modifies session, session.device`log
    ensures session.Valid() && |current| > 0 && current[0] == old(session.scan.partitions)
    ensures Ran(session.device.disk, session.device.flaky, old(session.confused), requests, answers, current,
                old(session.device.log), session.device.log)
  {
    hide Answered, Ran, Confuses, Within, ApaScan.OnDevice, DriveSession.Valid;
    ghost var d, confused, flaky := session.device.disk, session.confused, session.device.flaky;
    answers, current := [], [session.scan.partitions];
    assert requests[..0] == [];
    RanNothing(d, flaky, confused, session.scan.partitions, session.device.log);
    for i := 0 to |requests|
      invariant session.Valid() && |current| == i + 1
      invariant session.confused == ConfusedBy(confused, requests[..i])
      invariant current[0] == old(session.scan.partitions) && session.scan.partitions == current[i]
      invariant Ran(d, flaky, confused, requests[..i], answers, current, old(session.device.log), session.device.log)
    {
      ghost var log, so := session.device.log, requests[..i];
      var answer := Serve(session, requests[i]);
      ghost var now := session.scan.partitions;
      assert requests[..i + 1] == so + [requests[i]] && (so + [requests[i]])[..i] == so;
      RanOn(d, flaky, confused, so, answers, current, requests[i], answer, now, old(session.device.log), log,
            session.device.log);
      answers, current := answers + [answer], current + [now];
    }
    assert requests[..|requests|] == requests;
  }

  /** One request of a session. */
  method Serve(session: DriveSession, q: Request) returns (a: Answer)
    requires session.Valid()
    modifies session, session.device`log
    ensures session.Valid() && session.confused == Confuses(old(session.confused), q)
    ensures !q.Rescan? ==> session.scan == old(session.scan)
    ensures Answered(session.device.disk, session.confused, session.scan.partitions, q, a, session.device.flaky)
    ensures if q.Asks()
            then Within(session.device.disk, session.scan.partitions, q.id, old(session.device.log), session.device.log)
            else ApaScan.OnDevice(session.device.disk, old(session.device.log), session.device.log)
  {
    hide BrowseOf, StatOf, FileBytes, CleanSource, Within, ProbesOk, NodesOk, StatsOk, BrowsesOk, CleanId, ListingOk,
      ApaScan.Accepted, ApaScan.OnDevice;
    ApaScan.OnDeviceReflexive(session.device.disk, session.device.log);
    match q {
      case List(id, path) =>
        var lines := session.Browse(id, path);
        a := Lines(lines);
      case Look(id, path) =>
        var entry := session.Stat(id, path);
        a := Entry(entry);
      case Fetch(id, path, offset, length) =>
        var out := new Byte[length];
        var ok, n := session.ReadFile(id, path, offset, out);
        a := Bytes(if ok then Some(out[..n]) else None);
      case Forget =>
        session.ClearCaches();
        a := Forgotten;
      case Rescan =>
        var ok := session.Scan();
        a := Scanned(ok);
    }
  }

  lemma {:induction false} FreshProbeOk(d: Disk, ps: seq<ApaScan.Partition>, id: string, p: ApaScan.Partition,
                                        r: ProbeResult, flaky: bool)
    requires FindPartition(ps, id) == Some(p)
    requires r.valid ==> ProbeAt(VolumeOf(d, p), p.kind, p.IsSub()) == Some(r.super) && ValidZoneSize(r.super.zoneSize)
    requires !flaky ==> r.valid == ProbeAt(VolumeOf(d, p), p.kind, p.IsSub()).Some?
    ensures ProbeOk(d, ps, id, r, flaky)
  {
    hide FindPartition, ProbeAt, ValidZoneSize;
  }

  lemma CleanAt(d: Disk, ps: seq<ApaScan.Partition>, id: string, path: string)
    requires CleanSource(d, ps)
    ensures CleanDirectory(d, ps, id, path)
  {
    hide CleanDirectory;
  }

  lemma {:induction false} FileBytesOfNode(d: Disk, ps: seq<ApaScan.Partition>, id: string, path: string, offset: nat,
                                           n: nat, p: ApaScan.Partition, sb: SuperBlock)
    requires FindPartition(ps, id) == Some(p) && ProbeAt(VolumeOf(d, p), p.kind, p.IsSub()) == Some(sb)
    ensures FileBytes(d, ps, id, path, offset, n) ==
      match NodeOf(d, ps, id, path)
      case None => None
      case Some(node) =>
        var v, take := VolumeOf(d, p), ClampedLength(node.inode.size, offset, n);
        if Kind(node.inode.mode) != MODE_REGULAR then None
        else if take == 0 then Some([])
        else if ReadOk(v, sb, node.inode, offset, take) then Some(ReadBytes(v, sb, node.inode, offset, take)) else None
  {
    hide FindPartition, ProbeAt, NodeOf, ReadOk, ReadBytes, VolumeOf;
  }

  // ---- what a stat says ----

  /** A stat shows where the node is, its kind without permission bits, and its size. */
  lemma StatShowsNode(d: Disk, ps: seq<ApaScan.Partition>, id: string, path: string)
    ensures StatOf(d, ps, id, path).Some? <==> NodeOf(d, ps, id, path).Some?
    ensures StatOf(d, ps, id, path).Some? ==>
      var s, node := StatOf(d, ps, id, path).value, NodeOf(d, ps, id, path).value;
      && s.name == Normalize(path) && s.inode == node.location && s.size == node.inode.size && s.readable
      && s.mode == node.inode.mode / 0x1000 * 0x1000
  {
    hide NodeOf, Normalize;
  }

  lemma {:induction false} LinesMatch(fs: Fs, es: seq<DirEntry>)
    ensures |LinesOf(fs, es)| == |es|
    ensures forall i :: 0 <= i < |es| ==>
      var line := LinesOf(fs, es)[i];
      && line.name == es[i].name && line.inode == es[i].inode
      && (line.readable <==> fs.inode(es[i].inode).Some?)
      && (line.readable ==>
            && line.size == fs.inode(es[i].inode).value.inode.size
            && line.mode == fs.inode(es[i].inode).value.inode.mode / 0x1000 * 0x1000)
      && (!line.readable ==> line.size == 0 && line.mode == es[i].mode)
  {
    if es != [] {
      LinesMatch(fs, es[..|es| - 1]);
    }
  }

  /** In a clean directory a stat of a listed child agrees with the line its parent's listing shows. */
  lemma StatAgreesWithLine(d: Disk, ps: seq<ApaScan.Partition>, id: string, path: string, i: nat)
    requires CleanDirectory(d, ps, id, path) && BrowseOf(d, ps, id, path).Some?
    requires i < |BrowseOf(d, ps, id, path).value| && BrowseOf(d, ps, id, path).value[i].readable
    ensures var line := BrowseOf(d, ps, id, path).value[i];
      var s := StatOf(d, ps, id, ChildPath(path, line.name));
      && s.Some? && s.value.inode == line.inode && s.value.mode == line.mode && s.value.size == line.size
      && s.value.readable
  {
    hide Mounted, NodeOf, StatOf, LinesOf, CleanDirectory, ChildPath, Normalize, IsName;
    var fs, node := Mounted(d, ps, id).value, NodeOf(d, ps, id, path).value;
    var es := fs.list(node, false).value;
    LinesMatch(fs, es);
    ChildResolves(d, ps, id, path, fs, node, es[i]);
    StatShowsNode(d, ps, id, ChildPath(path, es[i].name));
    InodeStaysPut(d, ps, id, fs, es[i].inode);
  }

  /** An inode is where it was read from. */
  lemma InodeStaysPut(d: Disk, ps: seq<ApaScan.Partition>, id: string, fs: Fs, at: BlockInfo)
    ensures Mounted(d, ps, id) == Some(fs) && fs.inode(at).Some? ==> fs.inode(at).value.location == at
  {
    hide FindPartition, ProbeAt, MetadataAt, DecodeInode, Checksum;
  }

  // ---- what reading a part of a file delivers ----

  /** The path denotes a regular file on a mounted partition, and `whole` is all of it. */
  ghost predicate IsWhole(d: Disk, ps: seq<ApaScan.Partition>, id: string, path: string, whole: seq<Byte>) {
    match (FindPartition(ps, id), NodeOf(d, ps, id, path))
    case (Some(p), Some(node)) =>
      Kind(node.inode.mode) == MODE_REGULAR &&
      (match ProbeAt(VolumeOf(d, p), p.kind, p.IsSub())
       case None => false
       case Some(sb) =>
         && ReadOk(VolumeOf(d, p), sb, node.inode, 0, node.inode.size)
         && whole == ReadBytes(VolumeOf(d, p), sb, node.inode, 0, node.inode.size))
    case _ => false
  }

  /**
   * A request that reaches the end of the file or goes past it gets all from its offset on, any other
   * exactly what it asks for; from the end on there is nothing.
   */
  lemma ReadsPartOfWhole(d: Disk, ps: seq<ApaScan.Partition>, id: string, path: string, whole: seq<Byte>, offset: nat,
                         n: nat)
    requires IsWhole(d, ps, id, path, whole)
    ensures offset >= |whole| ==> FileBytes(d, ps, id, path, offset, n) == Some([])
    ensures offset < |whole| && n >= |whole| - offset ==> FileBytes(d, ps, id, path, offset, n) == Some(whole[offset..])
    ensures offset < |whole| && n < |whole| - offset ==>
      FileBytes(d, ps, id, path, offset, n) == Some(whole[offset..offset + n])
  {
    hide FindPartition, NodeOf, ProbeAt, ReadOk, ReadBytes, VolumeOf, ValidZoneSize, WholeSectors;
    var p, node := FindPartition(ps, id).value, NodeOf(d, ps, id, path).value;
    var v := VolumeOf(d, p);
    var sb := ProbeAt(v, p.kind, p.IsSub()).value;
    ProbedZone(v, p.kind, p.IsSub());
    if offset < |whole| {
      var take := if n < |whole| - offset then n else |whole| - offset;
      ReadSplits(v, sb, node.inode, 0, node.inode.size, offset, take);
      assert whole[offset..][..take] == whole[offset..offset + take];
      assert whole[offset..|whole|] == whole[offset..];
    }
  }

  lemma ProbedZone(v: Volume, kind: U16, isSub: bool)
    ensures ProbeAt(v, kind, isSub).Some? ==> WholeSectors(ProbeAt(v, kind, isSub).value.zoneSize)
  {
    hide SuperAt, ValidZoneSize, WholeSectors;
    if ProbeAt(v, kind, isSub).Some? {
      ZoneInSectors(ProbeAt(v, kind, isSub).value.zoneSize);
    }
  }

  /** Reading on where a read ended is reading both at once, past the end included, whole file or not. */
  lemma ReadsGoOn(d: Disk, ps: seq<ApaScan.Partition>, id: string, path: string, offset: nat, a: nat, b: nat)
    requires FileBytes(d, ps, id, path, offset, a).Some? && FileBytes(d, ps, id, path, offset + a, b).Some?
    ensures FileBytes(d, ps, id, path, offset, a + b)
         == Some(FileBytes(d, ps, id, path, offset, a).value + FileBytes(d, ps, id, path, offset + a, b).value)
  {
    hide FindPartition, NodeOf, ProbeAt, ReadOk, ReadBytes, VolumeOf, ValidZoneSize, WholeSectors;
    var p, node := FindPartition(ps, id).value, NodeOf(d, ps, id, path).value;
    var v := VolumeOf(d, p);
    var first, rest := ClampedLength(node.inode.size, offset, a), ClampedLength(node.inode.size, offset + a, b);
    var x, y := FileBytes(d, ps, id, path, offset, a).value, FileBytes(d, ps, id, path, offset + a, b).value;
    assert x + [] == x && [] + y == y;
    if first > 0 && rest > 0 {
      ProbedZone(v, p.kind, p.IsSub());
      ReadsJoin(v, ProbeAt(v, p.kind, p.IsSub()).value, node.inode, offset, first, rest);
    }
  }

  lemma NoFile(d: Disk, ps: seq<ApaScan.Partition>, id: string, path: string, offset: nat, n: nat)
    ensures NodeOf(d, ps, id, path) == None ==> FileBytes(d, ps, id, path, offset, n) == None
  {
    hide NodeOf, ReadOk;
  }

  lemma LineCases(fs: Fs, e: DirEntry)
    ensures LineOf(fs, e) ==
      match fs.inode(e.inode)
      case None => SessionEntry(e.name, e.inode, e.mode, 0, false)
      case Some(child) => SessionEntry(e.name, e.inode, Kind(child.inode.mode), child.inode.size, true)
  {
  }

  lemma ProbeNeedsPfs(v: Volume, kind: U16, isSub: bool)
    requires kind != TYPE_PFS
    ensures ProbeAt(v, kind, isSub) == None
  {
  }

  lemma NothingMounted(d: Disk, ps: seq<ApaScan.Partition>, id: string, path: string)
    ensures Mounted(d, ps, id) == None ==>
      NodeOf(d, ps, id, path) == None && StatOf(d, ps, id, path) == None && BrowseOf(d, ps, id, path) == None
  {
    hide Mounted;
  }

  /** On a mounted partition the node, stat and listing of a path are those of its normal form. */
  lemma MountedNode(d: Disk, ps: seq<ApaScan.Partition>, id: string, path: string, fs: Fs)
    requires Mounted(d, ps, id) == Some(fs)
    ensures NodeOf(d, ps, id, path) == Resolve(fs, Normalize(path)) == NodeOf(d, ps, id, Normalize(path))
    ensures BrowseOf(d, ps, id, path) ==
      match Resolve(fs, Normalize(path))
      case None => None
      case Some(node) =>
        if Kind(node.inode.mode) != MODE_DIRECTORY || fs.list(node, false).None? then None
        else Some(LinesOf(fs, fs.list(node, false).value))
  {
    hide Mounted, LinesOf, Resolve, Normalize;
    ResolveNormalized(fs, path);
  }

  lemma StatMeaning(d: Disk, ps: seq<ApaScan.Partition>, id: string, path: string)
    ensures StatOf(d, ps, id, path) ==
      match NodeOf(d, ps, id, path)
      case None => None
      case Some(node) => Some(StatFromNode(Normalize(path), node))
  {
    hide NodeOf, Normalize, StatFromNode;
  }
}
