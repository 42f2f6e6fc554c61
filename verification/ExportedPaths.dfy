/**
 * Where a successful export puts things: every exported node has one host path, made of the aliases
 * of the entries that lead to it, and the host's directories and files are those of these paths.
 */
module ExportedPaths {
  import opened Bytes
  import opened PfsFormat
  import opened PfsStream
  import opened PfsReader
  import opened PfsDirectory
  import opened PfsResolve
  import opened HostNames
  import opened Export

  // ---- places in a tree ----

  /** The export of some node, `sub`, lies at the host path `at` when `t` lies at `key`. */
  predicate Placed(t: Tree, key: HostPath, sub: Tree, at: HostPath)
    decreases t
  {
    (sub == t && at == key) || (t.DirTree? && PlacedIn(t.forest, key, sub, at))
  }

  predicate PlacedIn(f: Forest, key: HostPath, sub: Tree, at: HostPath)
    decreases f
  {
    match f
    case Empty => false
    case Missing(front) => PlacedIn(front, key, sub, at)
    case Grow(front, host, tree) => PlacedIn(front, key, sub, at) || Placed(tree, key + [Uppercase(host)], sub, at)
  }

  /** A directory needs itself and what is above it; a file what is above it. */
  predicate Needs(sub: Tree, at: HostPath, k: HostPath) {
    k != [] && k <= at && (sub.DirTree? || (sub.FileTree? && k != at))
  }

  lemma AncestorsArePrefixes(key: HostPath, k: HostPath)
    ensures k in Ancestors(key) <==> k != [] && k <= key
  {
    if k != [] && k <= key {
      assert key[..|k|] == k;
    }
  }

  ghost predicate Needed(t: Tree, key: HostPath, k: HostPath) {
    exists sub, at :: Placed(t, key, sub, at) && Needs(sub, at, k)
  }

  ghost predicate NeededIn(f: Forest, key: HostPath, k: HostPath) {
    exists sub, at :: PlacedIn(f, key, sub, at) && Needs(sub, at, k)
  }

  /** The directories of an export are exactly the needed ones. */
  lemma {:induction false} DirectoriesAreNeeded(t: Tree, key: HostPath, k: HostPath)
    requires key != []
    ensures k in DirectoriesOf(t, key) <==> Needed(t, key, k)
    decreases t
  {
    hide Ancestors, Uppercase;
    AncestorsArePrefixes(key, k);
    match t
    case FileTree(_, _) =>
      AncestorsArePrefixes(key[..|key| - 1], k);
      ProperPrefix(key, k);
      if Needs(t, key, k) {
        assert Placed(t, key, t, key);
      }
    case OtherTree(_) =>
    case DirTree(_, forest) =>
      ForestDirectoriesAreNeeded(forest, key, k);
      if Needs(t, key, k) {
        assert Placed(t, key, t, key);
      }
      if NeededIn(forest, key, k) {
        var sub, at :| PlacedIn(forest, key, sub, at) && Needs(sub, at, k);
        assert Placed(t, key, sub, at);
      }
  }

  lemma ProperPrefix(key: HostPath, k: HostPath)
    requires key != []
    ensures k <= key[..|key| - 1] <==> k <= key && k != key
  {
    if k <= key && k != key {
      assert |k| == |key| ==> k == key;
    }
  }

  lemma {:induction false} ForestDirectoriesAreNeeded(f: Forest, key: HostPath, k: HostPath)
    ensures k in DirectoriesIn(f, key) <==> NeededIn(f, key, k)
    decreases f
  {
    hide Uppercase, Needs, Placed;
    match f
    case Empty =>
    case Missing(front) =>
      ForestDirectoriesAreNeeded(front, key, k);
      if NeededIn(front, key, k) {
        var sub, at :| PlacedIn(front, key, sub, at) && Needs(sub, at, k);
        assert PlacedIn(f, key, sub, at);
      }
    case Grow(front, host, tree) =>
      var below := key + [Uppercase(host)];
      ForestDirectoriesAreNeeded(front, key, k);
      DirectoriesAreNeeded(tree, below, k);
      if NeededIn(front, key, k) {
        var sub, at :| PlacedIn(front, key, sub, at) && Needs(sub, at, k);
        assert PlacedIn(f, key, sub, at);
      }
      if Needed(tree, below, k) {
        var sub, at :| Placed(tree, below, sub, at) && Needs(sub, at, k);
        assert PlacedIn(f, key, sub, at);
      }
  }

  // ---- different exports lie at different paths ----

  lemma {:induction false} PlacesAreBelow(t: Tree, key: HostPath, sub: Tree, at: HostPath)
    requires Placed(t, key, sub, at)
    ensures key <= at && (sub == t || key < at)
    decreases t, 0
  {
    hide Uppercase, UpperSet;
    if t.DirTree? && PlacedIn(t.forest, key, sub, at) {
      ForestPlacesAreBelow(t.forest, key, sub, at);
    }
  }

  lemma {:induction false} ForestPlacesAreBelow(f: Forest, key: HostPath, sub: Tree, at: HostPath)
    requires PlacedIn(f, key, sub, at)
    ensures key < at && at[|key|] in UpperSet(HostsOf(f))
    decreases f, 0
  {
    hide Uppercase, UpperSet;
    match f
    case Empty =>
    case Missing(front) => ForestPlacesAreBelow(front, key, sub, at);
    case Grow(front, host, tree) =>
      UpperSetSnoc(HostsOf(front), host);
      if PlacedIn(front, key, sub, at) {
        ForestPlacesAreBelow(front, key, sub, at);
      } else {
        ChildPlace(tree, key, Uppercase(host), sub, at);
      }
  }

  lemma {:induction false} ChildPlace(t: Tree, key: HostPath, name: string, sub: Tree, at: HostPath)
    requires Placed(t, key + [name], sub, at)
    ensures key < at && at[|key|] == name
    decreases t, 1
  {
    PlacesAreBelow(t, key + [name], sub, at);
    assert (key + [name])[|key|] == name;
    assert at[..|key|] == (key + [name])[..|key|];
  }

  /** In every directory the entries have names that differ in more than case. */
  predicate Apart(t: Tree)
    decreases t
  {
    t.DirTree? ==> ApartIn(t.forest)
  }

  predicate ApartIn(f: Forest)
    decreases f
  {
    match f
    case Empty => true
    case Missing(front) => ApartIn(front)
    case Grow(front, host, tree) => ApartIn(front) && Apart(tree) && Uppercase(host) !in UpperSet(HostsOf(front))
  }

  lemma {:induction false} ExportedIsApart(o: Origin, depth: nat, active: set<nat>, node: Node, t: Tree)
    requires Exported(o, depth, active, node, t)
    ensures Apart(t)
    decreases t
  {
    hide Listing, Content, Grown, InodeKey, ApartIn;
    if t.DirTree? {
      GrownIsApart(o, depth, active + {InodeKey(node.location)}, Listing(o.v, o.sb, node, false).value, t.forest);
    }
  }

  lemma {:induction false} GrownIsApart(o: Origin, depth: nat, active: set<nat>, entries: seq<DirEntry>, f: Forest)
    requires Grown(o, depth, active, entries, f)
    ensures ApartIn(f)
    decreases f
  {
    hide InodeAt, Alias, UpperSet, Uppercase, Exported, Apart, HostsOf;
    if !f.Empty? {
      GrownIsApart(o, depth, active, entries[..|entries| - 1], f.front);
    }
    if f.Grow? {
      ExportedIsApart(o, depth + 1, active, f.tree.node, f.tree);
    }
  }

  /** Then what lies below the last entry lies nowhere else in its directory. */
  lemma {:induction false} LastEntryApart(f: Forest, key: HostPath, a: Tree, b: Tree, at: HostPath)
    requires f.Grow? && ApartIn(f) && PlacedIn(f.front, key, a, at)
    ensures !Placed(f.tree, key + [Uppercase(f.host)], b, at)
  {
    hide Uppercase, UpperSet, Placed, PlacedIn, HostsOf;
    ForestPlacesAreBelow(f.front, key, a, at);
    if Placed(f.tree, key + [Uppercase(f.host)], b, at) {
      ChildPlace(f.tree, key, Uppercase(f.host), b, at);
      assert false;
    }
  }

  // ---- files ----

  /** The exported files are exactly the host's, each at its own path. */
  lemma {:induction false} FilesAreThere(t: Tree, key: HostPath, k: HostPath)
    requires Apart(t)
    ensures k in FilesOf(t, key) <==> exists sub :: Placed(t, key, sub, k) && sub.FileTree?
    ensures forall sub :: Placed(t, key, sub, k) && sub.FileTree? ==> FilesOf(t, key)[k] == sub.bytes
    decreases t
  {
    hide Uppercase, FilesIn, PlacedIn, ApartIn;
    match t
    case FileTree(_, _) =>
      if k == key {
        assert Placed(t, key, t, k);
      }
    case OtherTree(_) =>
    case DirTree(_, forest) =>
      ForestFilesAreThere(forest, key, k);
      forall sub | PlacedIn(forest, key, sub, k) ensures Placed(t, key, sub, k) {
      }
  }

  lemma {:induction false} ForestFilesAreThere(f: Forest, key: HostPath, k: HostPath)
    requires ApartIn(f)
    ensures k in FilesIn(f, key) <==> exists sub :: PlacedIn(f, key, sub, k) && sub.FileTree?
    ensures forall sub :: PlacedIn(f, key, sub, k) && sub.FileTree? ==> FilesIn(f, key)[k] == sub.bytes
    decreases f
  {
    hide Uppercase, UpperSet, Placed, HostsOf, FilesOf, Apart;
    match f
    case Empty =>
    case Missing(front) => ForestFilesAreThere(front, key, k);
    case Grow(front, host, tree) =>
      var below := key + [Uppercase(host)];
      ForestFilesAreThere(front, key, k);
      FilesAreThere(tree, below, k);
      if a, b :| PlacedIn(front, key, a, k) && Placed(tree, below, b, k) {
        LastEntryApart(f, key, a, b, k);
      }
  }

  // ---- the directory counter ----

  ghost predicate AreDirectories(t: Tree, key: HostPath, places: set<HostPath>) {
    forall at :: at in places <==> exists sub :: Placed(t, key, sub, at) && sub.DirTree?
  }

  ghost predicate AreDirectoriesIn(f: Forest, key: HostPath, places: set<HostPath>) {
    forall at :: at in places <==> exists sub :: PlacedIn(f, key, sub, at) && sub.DirTree?
  }

  /** The counter of directories is the number of paths at which a directory was exported. */
  lemma {:induction false} DirectoriesAreCounted(t: Tree, key: HostPath)
    requires Apart(t)
    ensures exists places :: AreDirectories(t, key, places) && |places| == Count(t).directories
    decreases t
  {
    hide Uppercase, PlacedIn, CountIn, ApartIn;
    if t.DirTree? {
      ForestDirectoriesAreCounted(t.forest, key);
      var inside :| AreDirectoriesIn(t.forest, key, inside) && |inside| == CountIn(t.forest).directories;
      if key in inside {
        var sub :| PlacedIn(t.forest, key, sub, key) && sub.DirTree?;
        ForestPlacesAreBelow(t.forest, key, sub, key);
      }
      var places := inside + {key};
      forall at | at in places ensures exists sub :: Placed(t, key, sub, at) && sub.DirTree? {
        if at == key {
          assert Placed(t, key, t, at);
        } else {
          var sub :| PlacedIn(t.forest, key, sub, at) && sub.DirTree?;
          assert Placed(t, key, sub, at);
        }
      }
      assert AreDirectories(t, key, places);
    } else {
      assert AreDirectories(t, key, {});
    }
  }

  lemma {:induction false} ForestDirectoriesAreCounted(f: Forest, key: HostPath)
    requires ApartIn(f)
    ensures exists places :: AreDirectoriesIn(f, key, places) && |places| == CountIn(f).directories
    decreases f
  {
    hide Uppercase, UpperSet, Placed, HostsOf, Count, AreDirectories, Apart;
    match f
    case Empty => assert AreDirectoriesIn(f, key, {});
    case Missing(front) =>
      ForestDirectoriesAreCounted(front, key);
      var places :| AreDirectoriesIn(front, key, places) && |places| == CountIn(front).directories;
      assert AreDirectoriesIn(f, key, places);
    case Grow(front, host, tree) =>
      var below := key + [Uppercase(host)];
      ForestDirectoriesAreCounted(front, key);
      DirectoriesAreCounted(tree, below);
      var a :| AreDirectoriesIn(front, key, a) && |a| == CountIn(front).directories;
      var b :| AreDirectories(tree, below, b) && |b| == Count(tree).directories;
      BothAreDirectories(f, key, a, b);
  }

  lemma {:induction false} BothAreDirectories(f: Forest, key: HostPath, a: set<HostPath>, b: set<HostPath>)
    requires f.Grow? && AreDirectoriesIn(f.front, key, a) && AreDirectories(f.tree, key + [Uppercase(f.host)], b)
    requires ApartIn(f)
    ensures AreDirectoriesIn(f, key, a + b) && |a + b| == |a| + |b|
  {
    hide Uppercase, Placed, ApartIn;
    var below := key + [Uppercase(f.host)];
    if at :| at in a && at in b {
      var x :| PlacedIn(f.front, key, x, at) && x.DirTree?;
      var y :| Placed(f.tree, below, y, at) && y.DirTree?;
      LastEntryApart(f, key, x, y, at);
    }
    forall at | at in a + b ensures exists sub :: PlacedIn(f, key, sub, at) && sub.DirTree? {
      if at in a {
        var sub :| PlacedIn(f.front, key, sub, at) && sub.DirTree?;
        assert PlacedIn(f, key, sub, at);
      } else {
        var sub :| Placed(f.tree, below, sub, at) && sub.DirTree?;
        assert PlacedIn(f, key, sub, at);
      }
    }
  }

  // ---- the same paths, read off the directories ----

  /** The names of the entries whose inode can be read. */
  function ReadableNames(o: Origin, entries: seq<DirEntry>): seq<string> {
    if entries == [] then []
    else
      var last := entries[|entries| - 1];
      ReadableNames(o, entries[..|entries| - 1]) + if InodeAt(o.v, o.sb, last.inode).Some? then [last.name] else []
  }

  /** The name, up to case, under which entry `i` is put on the host: its alias among the readable entries. */
  ghost function HostNameAt(o: Origin, entries: seq<DirEntry>, i: nat): string
    requires i < |entries|
  {
    Uppercase(Alias(entries[i].name, UpperSet(Aliases(ReadableNames(o, entries[..i])))))
  }

  /** `node` is a directory, and its entry `i` is put on the host under `name` and leads to `child`. */
  ghost predicate EntryLeads(o: Origin, node: Node, i: nat, name: string, child: Node) {
    && Kind(node.inode.mode) == MODE_DIRECTORY
    && ChildAt(o, node, i) == Some(child)
    && name == HostNameAt(o, Listing(o.v, o.sb, node, false).value, i)
  }

  /** The host names `names` lead from `node` to `target`, from directory to directory. */
  ghost predicate NamesLead(o: Origin, node: Node, names: HostPath, target: Node)
    decreases |names|
  {
    if names == [] then node == target
    else exists i: nat, child :: EntryLeads(o, node, i, names[0], child) && NamesLead(o, child, names[1..], target)
  }

  lemma {:induction false} HostsAreAliases(o: Origin, depth: nat, active: set<nat>, entries: seq<DirEntry>, f: Forest)
    requires o.exact && Grown(o, depth, active, entries, f)
    ensures HostsOf(f) == Aliases(ReadableNames(o, entries))
    decreases f
  {
    hide InodeAt, Alias, UpperSet, Exported;
    if f.Empty? {
      assert ReadableNames(o, entries) == [];
    } else {
      var before, last := entries[..|entries| - 1], entries[|entries| - 1];
      HostsAreAliases(o, depth, active, before, f.front);
      var names := ReadableNames(o, before);
      if f.Grow? {
        AliasesSnoc(names, last.name);
        assert ReadableNames(o, entries) == names + [last.name];
      } else {
        assert ReadableNames(o, entries) == names + [] == names;
      }
    }
  }

  /** Tree `sub` of a forest is the export of entry `i`. */
  ghost predicate IsEntry(o: Origin, depth: nat, active: set<nat>, entries: seq<DirEntry>, i: nat, tree: Tree)
    requires i < |entries|
  {
    InodeAt(o.v, o.sb, entries[i].inode) == Some(tree.node) && Exported(o, depth + 1, active, tree.node, tree)
  }

  ghost predicate LiesBelow(o: Origin, depth: nat, active: set<nat>, entries: seq<DirEntry>, i: nat, tree: Tree,
                            key: HostPath, sub: Tree, at: HostPath) {
    && i < |entries| && IsEntry(o, depth, active, entries, i, tree)
    && Placed(tree, key + [HostNameAt(o, entries, i)], sub, at)
  }

  /** All that lies in the export of entry `i` lies in the forest. */
  ghost predicate Covers(o: Origin, depth: nat, active: set<nat>, entries: seq<DirEntry>, i: nat, tree: Tree,
                         f: Forest, key: HostPath) {
    && i < |entries| && IsEntry(o, depth, active, entries, i, tree)
    && forall sub, at :: Placed(tree, key + [HostNameAt(o, entries, i)], sub, at) ==> PlacedIn(f, key, sub, at)
  }

  /** What lies in a forest lies in the export of one of the entries, under its host name. */
  lemma {:induction false} ForestPlaceIsEntry(o: Origin, depth: nat, active: set<nat>, entries: seq<DirEntry>,
                                              f: Forest, key: HostPath, sub: Tree, at: HostPath)
    requires o.exact && Grown(o, depth, active, entries, f) && PlacedIn(f, key, sub, at)
    ensures exists i: nat, tree :: LiesBelow(o, depth, active, entries, i, tree, key, sub, at) && tree < f
    decreases f
  {
    hide InodeAt, Alias, UpperSet, Uppercase, Exported, Placed, Aliases;
    var n, front := |entries| - 1, entries[..|entries| - 1];
    if f.Grow? && Placed(f.tree, key + [Uppercase(f.host)], sub, at) {
      HostsAreAliases(o, depth, active, front, f.front);
      assert LiesBelow(o, depth, active, entries, n, f.tree, key, sub, at);
    } else {
      ForestPlaceIsEntry(o, depth, active, front, f.front, key, sub, at);
      var i: nat, tree :| LiesBelow(o, depth, active, front, i, tree, key, sub, at) && tree < f.front;
      assert front[..i] == entries[..i] && front[i] == entries[i];
      assert LiesBelow(o, depth, active, entries, i, tree, key, sub, at);
    }
  }

  /** Every readable entry has its export in the forest, and what lies in that lies in the forest. */
  lemma {:induction false} EntryIsPlaced(o: Origin, depth: nat, active: set<nat>, entries: seq<DirEntry>, f: Forest,
                                         key: HostPath, i: nat)
    requires o.exact && Grown(o, depth, active, entries, f)
    requires i < |entries| && InodeAt(o.v, o.sb, entries[i].inode).Some?
    ensures exists tree :: Covers(o, depth, active, entries, i, tree, f, key)
    decreases f
  {
    hide InodeAt, Alias, UpperSet, Uppercase, Exported, Placed, Aliases;
    var n, front := |entries| - 1, entries[..|entries| - 1];
    if i == n {
      HostsAreAliases(o, depth, active, front, f.front);
      assert Covers(o, depth, active, entries, n, f.tree, f, key);
    } else {
      EntryIsPlaced(o, depth, active, front, f.front, key, i);
      var tree :| Covers(o, depth, active, front, i, tree, f.front, key);
      assert front[..i] == entries[..i] && front[i] == entries[i];
      forall sub, at | PlacedIn(f.front, key, sub, at) ensures PlacedIn(f, key, sub, at) {
      }
      assert Covers(o, depth, active, entries, i, tree, f, key);
    }
  }

  /** An exported node lies where the aliases lead to it. */
  lemma {:induction false} PlaceIsLed(o: Origin, depth: nat, active: set<nat>, node: Node, t: Tree, key: HostPath,
                                      sub: Tree, at: HostPath)
    requires o.exact && Exported(o, depth, active, node, t) && Placed(t, key, sub, at)
    ensures key <= at && NamesLead(o, node, at[|key|..], sub.node)
    decreases t
  {
    hide InodeAt, Listing, Content, Grown, InodeKey, Uppercase, HostNameAt;
    PlacesAreBelow(t, key, sub, at);
    if t.DirTree? && PlacedIn(t.forest, key, sub, at) {
      var below, es := active + {InodeKey(node.location)}, Listing(o.v, o.sb, node, false).value;
      ForestPlaceIsEntry(o, depth, below, es, t.forest, key, sub, at);
      var i: nat, tree :| LiesBelow(o, depth, below, es, i, tree, key, sub, at) && tree < t.forest;
      var name := HostNameAt(o, es, i);
      PlaceIsLed(o, depth + 1, below, tree.node, tree, key + [name], sub, at);
      assert (key + [name])[|key|] == name;
      assert at[|key|..][1..] == at[|key + [name]|..];
      assert EntryLeads(o, node, i, name, tree.node);
    }
  }

  /** Wherever aliases lead, the export has the node they lead to. */
  lemma {:induction false} LedIsPlaced(o: Origin, depth: nat, active: set<nat>, node: Node, t: Tree, key: HostPath,
                                       names: HostPath, target: Node)
    requires o.exact && Exported(o, depth, active, node, t) && NamesLead(o, node, names, target)
    ensures exists sub: Tree :: sub.node == target && Placed(t, key, sub, key + names)
    decreases |names|
  {
    hide InodeAt, Listing, Content, Grown, InodeKey, Uppercase, HostNameAt, PlacedIn, Placed;
    if names == [] {
      assert key + names == key;
      RootPlaced(t, key);
    } else {
      var i: nat, child :| EntryLeads(o, node, i, names[0], child) && NamesLead(o, child, names[1..], target);
      var below, es := active + {InodeKey(node.location)}, Listing(o.v, o.sb, node, false).value;
      EntryIsPlaced(o, depth, below, es, t.forest, key, i);
      var tree :| Covers(o, depth, below, es, i, tree, t.forest, key);
      LedIsPlaced(o, depth + 1, below, child, tree, key + [names[0]], names[1..], target);
      var sub: Tree :| sub.node == target && Placed(tree, key + [names[0]], sub, key + [names[0]] + names[1..]);
      assert key + [names[0]] + names[1..] == key + names;
      InsidePlaced(t, key, sub, key + names);
    }
  }

  lemma {:induction false} RootPlaced(t: Tree, key: HostPath)
    ensures Placed(t, key, t, key)
  {
  }

  lemma {:induction false} InsidePlaced(t: Tree, key: HostPath, sub: Tree, at: HostPath)
    requires t.DirTree? && PlacedIn(t.forest, key, sub, at)
    ensures Placed(t, key, sub, at)
  {
  }

  // ---- the host after a successful export ----

  /**
   * What a successful export adds to the host: the exported directories and the directories above
   * exported nodes, and the exported files with their bytes; nothing else is added, and the
   * counters of directories and files are the numbers of exported ones.
   */
  lemma {:induction false} ExportAddsExactly(o: Origin, path: string, key: HostPath, t: Tree, stats: Stats,
                                            files0: map<HostPath, seq<Byte>>, files: map<HostPath, seq<Byte>>,
                                            dirs0: set<HostPath>, dirs: set<HostPath>)
    requires key != [] && Succeeded(o, path, key, t, stats, files0, files, dirs0, dirs)
    ensures forall k :: k in dirs <==> k in dirs0 || exists sub, at :: Placed(t, key, sub, at) && Needs(sub, at, k)
    ensures forall k :: k in files <==> k in files0 || exists sub :: Placed(t, key, sub, k) && sub.FileTree?
    ensures forall sub, k :: Placed(t, key, sub, k) && sub.FileTree? ==> k in files && files[k] == sub.bytes
    ensures exists places :: AreDirectories(t, key, places) && |places| == stats.directories
  {
    hide Exported, Placed, Needs, FilesOf, DirectoriesOf, Resolve, Apart;
    ExportedIsApart(o, 0, {}, t.node, t);
    DirectoriesAreCounted(t, key);
    forall k ensures k in dirs <==> k in dirs0 || exists sub, at :: Placed(t, key, sub, at) && Needs(sub, at, k) {
      DirectoriesAreNeeded(t, key, k);
    }
    forall k
      ensures k in FilesOf(t, key) <==> exists sub :: Placed(t, key, sub, k) && sub.FileTree?
      ensures forall sub :: Placed(t, key, sub, k) && sub.FileTree? ==> FilesOf(t, key)[k] == sub.bytes
    {
      FilesAreThere(t, key, k);
    }
  }

  /** Host names that lead from the exported node to `target`. */
  ghost predicate Reaches(o: Origin, path: string, names: HostPath, target: Node) {
    match Resolve(FsOf(o.v, o.sb), path)
    case None => false
    case Some(node) => NamesLead(o, node, names, target)
  }

  /** The aliases that lead from `key` to the host path `k` lead to a regular file. */
  ghost predicate ReachesFile(o: Origin, path: string, key: HostPath, k: HostPath, target: Node) {
    key <= k && Reaches(o, path, k[|key|..], target) && Kind(target.inode.mode) == MODE_REGULAR
  }

  /** Host directory `k` is due to `target` at `at`: it, or for a file its parent, lies at or below `k`. */
  predicate Serves(k: HostPath, at: HostPath, target: Node) {
    && k != [] && k <= at
    && (|| Kind(target.inode.mode) == MODE_DIRECTORY
        || (Kind(target.inode.mode) == MODE_REGULAR && k != at))
  }

  /** What an exported tree is, by the kind of its node. */
  lemma {:induction false} PlacedIsExported(o: Origin, depth: nat, active: set<nat>, node: Node, t: Tree,
                                            key: HostPath, sub: Tree, at: HostPath)
    requires Exported(o, depth, active, node, t) && Placed(t, key, sub, at)
    ensures sub.DirTree? <==> Kind(sub.node.inode.mode) == MODE_DIRECTORY
    ensures sub.FileTree? <==> Kind(sub.node.inode.mode) == MODE_REGULAR
    ensures sub.FileTree? ==> Content(o.v, o.sb, sub.node.inode) == Some(sub.bytes)
    decreases t
  {
    hide Listing, Content, Grown, InodeKey, Uppercase, PlacedIn;
    if t.DirTree? && PlacedIn(t.forest, key, sub, at) {
      var below, es := active + {InodeKey(node.location)}, Listing(o.v, o.sb, node, false).value;
      ForestPlacedIsExported(o, depth, below, es, t.forest, key, sub, at);
    }
  }

  lemma {:induction false} ForestPlacedIsExported(o: Origin, depth: nat, active: set<nat>, entries: seq<DirEntry>,
                                                  f: Forest, key: HostPath, sub: Tree, at: HostPath)
    requires Grown(o, depth, active, entries, f) && PlacedIn(f, key, sub, at)
    ensures sub.DirTree? <==> Kind(sub.node.inode.mode) == MODE_DIRECTORY
    ensures sub.FileTree? <==> Kind(sub.node.inode.mode) == MODE_REGULAR
    ensures sub.FileTree? ==> Content(o.v, o.sb, sub.node.inode) == Some(sub.bytes)
    decreases f
  {
    hide InodeAt, Alias, UpperSet, Uppercase, Exported, Placed, HostsOf, Content;
    if f.Grow? && Placed(f.tree, key + [Uppercase(f.host)], sub, at) {
      PlacedIsExported(o, depth + 1, active, f.tree.node, f.tree, key + [Uppercase(f.host)], sub, at);
    } else {
      ForestPlacedIsExported(o, depth, active, entries[..|entries| - 1], f.front, key, sub, at);
    }
  }

  lemma {:induction false} PlaceReached(o: Origin, path: string, key: HostPath, t: Tree, sub: Tree, at: HostPath,
                                        k: HostPath)
    requires o.exact && Resolve(FsOf(o.v, o.sb), path) == Some(t.node) && Exported(o, 0, {}, t.node, t)
    requires Placed(t, key, sub, at)
    ensures key <= at && Reaches(o, path, at[|key|..], sub.node) && key + at[|key|..] == at
    ensures Needs(sub, at, k) <==> Serves(k, at, sub.node)
    ensures sub.FileTree? <==> Kind(sub.node.inode.mode) == MODE_REGULAR
    ensures sub.FileTree? ==> Content(o.v, o.sb, sub.node.inode) == Some(sub.bytes)
  {
    hide Exported, Placed, Resolve, NamesLead, Content, Kind, FsOf;
    PlaceIsLed(o, 0, {}, t.node, t, key, sub, at);
    PlacedIsExported(o, 0, {}, t.node, t, key, sub, at);
  }

  lemma {:induction false} ReachedPlace(o: Origin, path: string, key: HostPath, t: Tree, names: HostPath, target: Node)
    requires o.exact && Resolve(FsOf(o.v, o.sb), path) == Some(t.node) && Exported(o, 0, {}, t.node, t)
    requires Reaches(o, path, names, target)
    ensures exists sub: Tree :: sub.node == target && Placed(t, key, sub, key + names)
  {
    hide Exported, Placed, Resolve, NamesLead, FsOf;
    LedIsPlaced(o, 0, {}, t.node, t, key, names, target);
  }

  /**
   * The same over the directories themselves, when only unreadable inodes were skipped: the host
   * has gained exactly the directories aliases lead to and those above what they lead to.
   */
  lemma DirectoriesMirrored(o: Origin, path: string, key: HostPath, t: Tree, stats: Stats,
                            files0: map<HostPath, seq<Byte>>, files: map<HostPath, seq<Byte>>,
                            dirs0: set<HostPath>, dirs: set<HostPath>, k: HostPath)
    requires o.exact && key != [] && Succeeded(o, path, key, t, stats, files0, files, dirs0, dirs)
    ensures k in dirs <==> k in dirs0 || exists names, target :: Reaches(o, path, names, target)
                                                                  && Serves(k, key + names, target)
  {
    hide Exported, Placed, FilesOf, DirectoriesOf, Resolve, Reaches, Needs, Serves, FsOf;
    DirectoriesAreNeeded(t, key, k);
    if sub, at :| Placed(t, key, sub, at) && Needs(sub, at, k) {
      PlaceReached(o, path, key, t, sub, at, k);
      assert Reaches(o, path, at[|key|..], sub.node) && Serves(k, key + at[|key|..], sub.node);
    }
    if names, target :| Reaches(o, path, names, target) && Serves(k, key + names, target) {
      ReachedPlace(o, path, key, t, names, target);
      var sub: Tree :| sub.node == target && Placed(t, key, sub, key + names);
      PlaceReached(o, path, key, t, sub, key + names, k);
    }
  }

  /** It has gained exactly the regular files aliases lead to, each whole and at its own path. */
  lemma FilesMirrored(o: Origin, path: string, key: HostPath, t: Tree, stats: Stats,
                      files0: map<HostPath, seq<Byte>>, files: map<HostPath, seq<Byte>>,
                      dirs0: set<HostPath>, dirs: set<HostPath>, k: HostPath)
    requires o.exact && key != [] && Succeeded(o, path, key, t, stats, files0, files, dirs0, dirs)
    ensures k in files <==> k in files0 || exists target :: ReachesFile(o, path, key, k, target)
    ensures forall target :: ReachesFile(o, path, key, k, target) ==>
      k in files && Content(o.v, o.sb, target.inode) == Some(files[k])
  {
    hide Exported, Placed, FilesOf, DirectoriesOf, Resolve, Reaches, Needs, Serves, FsOf, Content, Kind, Apart;
    ExportedIsApart(o, 0, {}, t.node, t);
    FilesAreThere(t, key, k);
    if sub :| Placed(t, key, sub, k) && sub.FileTree? {
      PlaceReached(o, path, key, t, sub, k, k);
      assert ReachesFile(o, path, key, k, sub.node);
    }
    forall target | ReachesFile(o, path, key, k, target)
      ensures k in files && Content(o.v, o.sb, target.inode) == Some(files[k])
    {
      var names := k[|key|..];
      assert key + names == k;
      ReachedPlace(o, path, key, t, names, target);
      var sub: Tree :| sub.node == target && Placed(t, key, sub, key + names);
      PlaceReached(o, path, key, t, sub, k, k);
    }
  }
}
