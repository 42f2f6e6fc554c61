/**
 * Calls into one session from any number of threads: `src/host/drive_session.cpp`. Every section
 * under the cache lock is one step of its thread, and so is the disk access between two sections;
 * clears may come at any point. The caches stay faithful, and every reply is the uncached one.
 */
module SessionThreads {
  import opened Bytes
  import opened Disk
  import opened ApaVolume
  import opened PfsFormat
  import opened PfsStream
  import opened PfsReader
  import opened PfsDirectory
  import opened Paths
  import opened PfsResolve
  import opened DriveSession
  import ApaScan

  /** What the calls share besides the caches: the device, the scanned partitions, whether reads may fail. */
  datatype Base = Base(d: Disk, ps: seq<ApaScan.Partition>, flaky: bool)

  datatype Caches = Caches(
    probes: map<string, ProbeResult>, browses: map<string, seq<SessionEntry>>,
    stats: map<string, SessionEntry>, nodes: map<string, Node>)

  /** One insertion a section makes. */
  datatype Put =
    | PutNode(key: string, node: Node)
    | PutStat(key: string, entry: SessionEntry)
    | PutBrowse(key: string, lines: seq<SessionEntry>)

  /** What a call does once its last insertions are made. */
  datatype Then = Reply(answer: Answer) | Read(super: SuperBlock, node: Node)

  /** Where a call stands; a superblock is held from the moment the partition is known to be mounted. */
  datatype Phase =
    | Enter
    | SeekNode(mounted: Option<SuperBlock>)
    | SeekProbe
    | KeepProbe(probe: ProbeResult)
    | AskDisk(super: SuperBlock)
    | Keep(puts: seq<Put>, next: Then)
    | Deliver(super: SuperBlock, node: Node)
    | Replied(answer: Answer)

  datatype Thread = Idle | Busy(q: Request, phase: Phase)

  datatype State = State(caches: Caches, threads: seq<Thread>)

  /** The environment: whether a read fails, which children cannot be read, and which entries are evicted. */
  datatype Choice = Choice(fail: bool, gone: set<nat>, backup: bool, pick: set<string> -> string)

  datatype Action = Start(thread: nat, q: Request) | Advance(thread: nat, choice: Choice) | Clear

  // ---- the sections ----

  ghost function Victim<V>(m: map<string, V>, pick: set<string> -> string): string
    requires m != map[]
  {
    if pick(m.Keys) in m then pick(m.Keys) else var k :| k in m; k
  }

  /** Stores an entry; a full map first gives up another one. */
  ghost function PutInto<V>(m: map<string, V>, key: string, value: V, max: nat, pick: set<string> -> string):
    map<string, V>
  {
    if key !in m && |m| >= max && m != map[] then (m - {Victim(m, pick)})[key := value] else m[key := value]
  }

  ghost function PutOne(c: Caches, put: Put, pick: set<string> -> string): Caches {
    match put
    case PutNode(key, node) => c.(nodes := PutInto(c.nodes, key, node, MAX_NODE_ENTRIES, pick))
    case PutStat(key, entry) => c.(stats := PutInto(c.stats, key, entry, MAX_STAT_ENTRIES, pick))
    case PutBrowse(key, lines) => c.(browses := PutInto(c.browses, key, lines, MAX_BROWSE_ENTRIES, pick))
  }

  ghost function PutAll(c: Caches, puts: seq<Put>, pick: set<string> -> string): Caches {
    if puts == [] then c else PutOne(PutAll(c, puts[..|puts| - 1], pick), puts[|puts| - 1], pick)
  }

  function Failed(q: Request): Answer
    requires q.Asks()
  {
    match q
    case List(_, _) => Lines(None)
    case Look(_, _) => Entry(None)
    case Fetch(_, _, _, _) => Bytes(None)
  }

  function Key(q: Request): string
    requires q.Asks()
  {
    MakeKey(q.id, q.path)
  }

  /** Without the partition, or if it is not PFS, a call fails before it looks for the probe. */
  function ToProbe(base: Base, q: Request): Phase
    requires q.Asks()
  {
    match FindPartition(base.ps, q.id)
    case None => Replied(Failed(q))
    case Some(p) => if p.kind == TYPE_PFS then SeekProbe else Replied(Failed(q))
  }

  function Probed(q: Request, r: ProbeResult): Phase
    requires q.Asks()
  {
    if !r.valid then Replied(Failed(q)) else if q.Fetch? then SeekNode(Some(r.super)) else AskDisk(r.super)
  }

  function ProbeDisk(base: Base, p: ApaScan.Partition, choice: Choice): ProbeResult {
    match ProbeAt(VolumeOf(base.d, p), p.kind, p.IsSub())
    case None => ProbeResult(false, choice.backup, NO_SUPER)
    case Some(sb) => ProbeResult(!(choice.fail && base.flaky), choice.backup, sb)
  }

  /** The child's inode, unless it cannot be read this time. */
  function Child(fs: Fs, e: DirEntry, i: nat, gone: set<nat>): Option<Node> {
    if i in gone then None else fs.inode(e.inode)
  }

  function SeenLine(fs: Fs, e: DirEntry, i: nat, gone: set<nat>): SessionEntry {
    match Child(fs, e, i, gone)
    case None => SessionEntry(e.name, e.inode, e.mode, 0, false)
    case Some(child) => SessionEntry(e.name, e.inode, Kind(child.inode.mode), child.inode.size, true)
  }

  function SeenLines(fs: Fs, es: seq<DirEntry>, gone: set<nat>): seq<SessionEntry> {
    if es == [] then [] else SeenLines(fs, es[..|es| - 1], gone) + [SeenLine(fs, es[|es| - 1], |es| - 1, gone)]
  }

  function NodePuts(fs: Fs, id: string, parent: string, es: seq<DirEntry>, gone: set<nat>): seq<Put> {
    if es == [] then []
    else
      var before, e := NodePuts(fs, id, parent, es[..|es| - 1], gone), es[|es| - 1];
      match Child(fs, e, |es| - 1, gone)
      case None => before
      case Some(child) => before + [PutNode(MakeKey(id, ChildPath(parent, e.name)), child)]
  }

  function StatPuts(fs: Fs, id: string, parent: string, es: seq<DirEntry>, gone: set<nat>): seq<Put> {
    if es == [] then []
    else
      var before, e := StatPuts(fs, id, parent, es[..|es| - 1], gone), es[|es| - 1];
      match Child(fs, e, |es| - 1, gone)
      case None => before
      case Some(child) =>
        var path := ChildPath(parent, e.name);
        before + [PutStat(MakeKey(id, path), StatFromNode(path, child))]
  }

  /** A resolved node and its stat, under the request's key. */
  function NodeAndStat(q: Request, node: Node): seq<Put>
    requires q.Asks()
  {
    [PutNode(Key(q), node), PutStat(Key(q), StatFromNode(Normalize(q.path), node))]
  }

  /** What a listing remembers: the directory and its readable children, then the listing itself. */
  function ListPuts(fs: Fs, q: Request, node: Node, es: seq<DirEntry>, gone: set<nat>): seq<Put>
    requires q.Asks()
  {
    var parent := Normalize(q.path);
    [PutNode(Key(q), node)] + NodePuts(fs, q.id, parent, es, gone)
    + [PutStat(Key(q), StatFromNode(parent, node))] + StatPuts(fs, q.id, parent, es, gone)
    + [PutBrowse(Key(q), SeenLines(fs, es, gone))]
  }

  /** The disk accesses of a call that found nothing in the caches. */
  function FromDisk(base: Base, q: Request, fs: Fs, sb: SuperBlock, choice: Choice): Phase
    requires q.Asks()
  {
    match Resolve(fs, Normalize(q.path))
    case None => Replied(Failed(q))
    case Some(node) =>
      match q
      case List(_, _) =>
        if Kind(node.inode.mode) != MODE_DIRECTORY || fs.list(node, false).None? then Replied(Failed(q))
        else
          var es, gone := fs.list(node, false).value, if base.flaky then choice.gone else {};
          Keep(ListPuts(fs, q, node, es, gone), Reply(Lines(Some(SeenLines(fs, es, gone)))))
      case Look(_, _) =>
        Keep(NodeAndStat(q, node), Reply(Entry(Some(StatFromNode(Normalize(q.path), node)))))
      case Fetch(_, _, _, _) => Keep(NodeAndStat(q, node), Read(sb, node))
  }

  /** The data of a file, clamped to its end. */
  function Delivered(base: Base, q: Request, v: Volume, sb: SuperBlock, node: Node, choice: Choice): Answer
    requires q.Fetch?
  {
    var take := ClampedLength(node.inode.size, q.offset, q.length);
    if Kind(node.inode.mode) != MODE_REGULAR then Bytes(None)
    else if take == 0 then Bytes(Some([]))
    else if (choice.fail && base.flaky) || !ReadOk(v, sb, node.inode, q.offset, take) then Bytes(None)
    else Bytes(Some(ReadBytes(v, sb, node.inode, q.offset, take)))
  }

  /** What the phase has established about the request, so that its step makes sense. */
  predicate CanAdvance(base: Base, q: Request, phase: Phase) {
    && q.Asks() && !phase.Replied?
    && (phase.SeekNode? ==> (q.Look? && phase.mounted.None?) || (q.Fetch? && phase.mounted.Some?))
    && (phase.Deliver? ==> q.Fetch?)
    && (phase.SeekProbe? || phase.KeepProbe? || phase.AskDisk? || phase.Deliver? ==>
          FindPartition(base.ps, q.id).Some?)
  }

  /** One step of a call: a section under the lock, or the disk access between two. */
  ghost function Step(base: Base, c: Caches, q: Request, phase: Phase, choice: Choice): (Caches, Phase)
    requires CanAdvance(base, q, phase)
  {
    match phase
    case Enter =>
      (match q
       case List(_, _) =>
         (c, if Key(q) in c.browses then Replied(Lines(Some(c.browses[Key(q)]))) else ToProbe(base, q))
       case Look(_, _) =>
         (c, if Key(q) in c.stats then Replied(Entry(Some(c.stats[Key(q)]))) else SeekNode(None))
       case Fetch(_, _, _, _) => (c, ToProbe(base, q)))
    case SeekNode(mounted) =>
      if Key(q) in c.nodes then
        var entry := StatFromNode(Normalize(q.path), c.nodes[Key(q)]);
        (c, if q.Look? then Keep([PutStat(Key(q), entry)], Reply(Entry(Some(entry))))
            else Deliver(mounted.value, c.nodes[Key(q)]))
      else (c, if q.Look? then ToProbe(base, q) else AskDisk(mounted.value))
    case SeekProbe =>
      if q.id in c.probes then (c, Probed(q, c.probes[q.id]))
      else (c, KeepProbe(ProbeDisk(base, FindPartition(base.ps, q.id).value, choice)))
    case KeepProbe(probe) =>
      (c.(probes := PutInto(c.probes, q.id, probe, MAX_PROBE_ENTRIES, choice.pick)), Probed(q, probe))
    case AskDisk(sb) =>
      if choice.fail && base.flaky then (c, Replied(Failed(q)))
      else (c, FromDisk(base, q, FsOf(VolumeOf(base.d, FindPartition(base.ps, q.id).value), sb), sb, choice))
    case Keep(puts, next) =>
      (PutAll(c, puts, choice.pick),
       match next case Reply(answer) => Replied(answer) case Read(sb, node) => Deliver(sb, node))
    case Deliver(sb, node) =>
      (c, Replied(Delivered(base, q, VolumeOf(base.d, FindPartition(base.ps, q.id).value), sb, node, choice)))
  }

  // ---- the whole session ----

  predicate Enabled(base: Base, s: State, act: Action) {
    match act
    case Start(t, q) =>
      t < |s.threads| && (s.threads[t].Idle? || s.threads[t].phase.Replied?) && q.Asks()
    case Advance(t, _) => t < |s.threads| && s.threads[t].Busy? && CanAdvance(base, s.threads[t].q, s.threads[t].phase)
    case Clear => true
  }

  ghost function Apply(base: Base, s: State, act: Action): State
    requires Enabled(base, s, act)
  {
    match act
    case Start(t, q) => s.(threads := s.threads[t := Busy(q, Enter)])
    case Advance(t, choice) =>
      var q := s.threads[t].q;
      var r := Step(base, s.caches, q, s.threads[t].phase, choice);
      State(r.0, s.threads[t := Busy(q, r.1)])
    case Clear => s.(caches := Caches(map[], map[], map[], map[]))
  }

  function Fresh(n: nat): State {
    State(Caches(map[], map[], map[], map[]), seq(n, _ => Idle))
  }

  /** The state after an interleaving of `n` threads' calls and clears, if each action was possible. */
  ghost function After(base: Base, n: nat, acts: seq<Action>): Option<State> {
    if acts == [] then Some(Fresh(n))
    else
      match After(base, n, acts[..|acts| - 1])
      case None => None
      case Some(s) =>
        if Enabled(base, s, acts[|acts| - 1]) then Some(Apply(base, s, acts[|acts| - 1])) else None
  }

  // ---- what every interleaving keeps ----

  /** Every map keeps its bound, and every entry is what an uncached session would answer. */
  ghost predicate CachesOk(base: Base, c: Caches) {
    && |c.probes| <= 256 && |c.browses| <= 1024 && |c.stats| <= 8192 && |c.nodes| <= 8192
    && ProbesOk(base.d, base.ps, c.probes, base.flaky) && NodesOk(base.d, base.ps, c.nodes)
    && StatsOk(base.d, base.ps, c.stats) && BrowsesOk(base.d, base.ps, c.browses, base.flaky)
  }

  ghost predicate PutOk(base: Base, put: Put) {
    match put
    case PutNode(key, node) => NodeOf(base.d, base.ps, KeyId(key), KeyPath(key)) == Some(node)
    case PutStat(key, entry) => StatOf(base.d, base.ps, KeyId(key), KeyPath(key)) == Some(entry)
    case PutBrowse(key, lines) =>
      ListingOk(lines, BrowseOf(base.d, base.ps, KeyId(key), KeyPath(key)), base.flaky)
  }

  /** The insertion is there to be found. */
  ghost predicate Held(c: Caches, put: Put) {
    match put
    case PutNode(key, node) => Holds(c.nodes, key, node)
    case PutStat(key, entry) => Holds(c.stats, key, entry)
    case PutBrowse(key, lines) => Holds(c.browses, key, lines)
  }

  ghost predicate PutsOk(base: Base, puts: seq<Put>) {
    forall i :: 0 <= i < |puts| ==> PutOk(base, puts[i])
  }

  ghost predicate MountedBy(base: Base, id: string, sb: SuperBlock) {
    match FindPartition(base.ps, id)
    case None => false
    case Some(p) => ProbeAt(VolumeOf(base.d, p), p.kind, p.IsSub()) == Some(sb)
  }

  ghost predicate NodeOk(base: Base, q: Request, sb: SuperBlock, node: Node)
    requires q.Asks()
  {
    MountedBy(base, q.id, sb) && NodeOf(base.d, base.ps, q.id, q.path) == Some(node)
  }

  ghost predicate ThenOk(base: Base, q: Request, next: Then)
    requires q.Asks()
  {
    match next
    case Reply(answer) => AnswerOk(base.d, base.ps, q, answer, base.flaky)
    case Read(sb, node) => q.Fetch? && NodeOk(base, q, sb, node)
  }

  ghost predicate PhaseOk(base: Base, q: Request, phase: Phase) {
    && q.Asks() && CleanId(q.id)
    && match phase
       case Enter => true
       case SeekNode(mounted) =>
         if q.Look? then mounted.None? else q.Fetch? && mounted.Some? && MountedBy(base, q.id, mounted.value)
       case SeekProbe => FindPartition(base.ps, q.id).Some?
       case KeepProbe(probe) => ProbeOk(base.d, base.ps, q.id, probe, base.flaky)
       case AskDisk(sb) => MountedBy(base, q.id, sb)
       case Keep(puts, next) => PutsOk(base, puts) && ThenOk(base, q, next)
       case Deliver(sb, node) => q.Fetch? && NodeOk(base, q, sb, node)
       case Replied(answer) => AnswerOk(base.d, base.ps, q, answer, base.flaky)
  }

  ghost predicate SessionOk(base: Base, s: State) {
    && CachesOk(base, s.caches)
    && forall t :: 0 <= t < |s.threads| && s.threads[t].Busy? ==> PhaseOk(base, s.threads[t].q, s.threads[t].phase)
  }

  /** The source is unambiguous, and so is every request. */
  ghost predicate CleanRun(base: Base, acts: seq<Action>) {
    && CleanSource(base.d, base.ps)
    && forall i :: 0 <= i < |acts| && acts[i].Start? && acts[i].q.Asks() ==> CleanId(acts[i].q.id)
  }

  // ---- insertions ----

  lemma PutIntoOk<V>(m: map<string, V>, key: string, value: V, max: nat, pick: set<string> -> string)
    requires max > 0 && |m| <= max
    ensures var r := PutInto(m, key, value, max, pick);
      && |r| <= max && key in r && r[key] == value
      && forall k :: k in r && k != key ==> k in m && r[k] == m[k]
  {
    var r := PutInto(m, key, value, max, pick);
    if key !in m && |m| >= max {
      var victim := Victim(m, pick);
      assert (m - {victim}).Keys == m.Keys - {victim};
      assert r.Keys == m.Keys - {victim} + {key};
    } else {
      assert r.Keys == m.Keys + {key};
    }
  }

  lemma PutOneOk(base: Base, c: Caches, put: Put, pick: set<string> -> string)
    requires CachesOk(base, c) && PutOk(base, put)
    ensures CachesOk(base, PutOne(c, put, pick)) && Held(PutOne(c, put, pick), put)
  {
    hide NodeOf, StatOf, BrowseOf, ListingOk, ProbesOk, PutInto, KeyId, KeyPath;
    match put
    case PutNode(key, node) => PutIntoOk(c.nodes, key, node, MAX_NODE_ENTRIES, pick);
    case PutStat(key, entry) => PutIntoOk(c.stats, key, entry, MAX_STAT_ENTRIES, pick);
    case PutBrowse(key, lines) => PutIntoOk(c.browses, key, lines, MAX_BROWSE_ENTRIES, pick);
  }

  lemma {:induction false} PutAllOk(base: Base, c: Caches, puts: seq<Put>, pick: set<string> -> string)
    requires CachesOk(base, c) && PutsOk(base, puts)
    ensures CachesOk(base, PutAll(c, puts, pick))
    ensures puts != [] ==> Held(PutAll(c, puts, pick), puts[|puts| - 1])
  {
    hide CachesOk, PutOk, PutOne, Held;
    if puts != [] {
      PutAllOk(base, c, puts[..|puts| - 1], pick);
      PutOneOk(base, PutAll(c, puts[..|puts| - 1], pick), puts[|puts| - 1], pick);
    }
  }

  lemma PutProbeOk(base: Base, c: Caches, id: string, probe: ProbeResult, pick: set<string> -> string)
    requires CachesOk(base, c) && ProbeOk(base.d, base.ps, id, probe, base.flaky)
    ensures CachesOk(base, c.(probes := PutInto(c.probes, id, probe, MAX_PROBE_ENTRIES, pick)))
  {
    hide ProbeOk, NodesOk, StatsOk, BrowsesOk, PutInto;
    PutIntoOk(c.probes, id, probe, MAX_PROBE_ENTRIES, pick);
  }

  // ---- what a listing remembers is right ----

  lemma {:induction false} SeenLinesOk(fs: Fs, es: seq<DirEntry>, gone: set<nat>)
    ensures Degraded(SeenLines(fs, es, gone), LinesOf(fs, es))
    ensures gone == {} ==> SeenLines(fs, es, gone) == LinesOf(fs, es)
  {
    if es != [] {
      SeenLinesOk(fs, es[..|es| - 1], gone);
    }
  }

  /** A readable child of a clean directory, under the key of its path. */
  lemma ChildPutOk(base: Base, id: string, path: string, fs: Fs, node: Node, e: DirEntry, child: Node)
    requires CleanSource(base.d, base.ps) && CleanId(id)
    requires Mounted(base.d, base.ps, id) == Some(fs) && NodeOf(base.d, base.ps, id, path) == Some(node)
    requires fs.list(node, false).Some? && e in fs.list(node, false).value && fs.inode(e.inode) == Some(child)
    ensures PutOk(base, PutNode(MakeKey(id, ChildPath(path, e.name)), child))
    ensures PutOk(base, PutStat(MakeKey(id, ChildPath(path, e.name)), StatFromNode(ChildPath(path, e.name), child)))
  {
    hide NodeOf, StatOf, Mounted, KeyId, KeyPath, Normalize, ChildPath, MakeKey, CleanSource, StatFromNode, IsName,
      CleanDirectory;
    CleanAt(base.d, base.ps, id, path);
    ChildResolves(base.d, base.ps, id, path, fs, node, e);
    KeyMeaning(base.d, base.ps, id, ChildPath(path, e.name));
    StatMeaning(base.d, base.ps, id, ChildPath(path, e.name));
  }

  lemma {:induction false} ChildPutsOk(base: Base, id: string, path: string, fs: Fs, node: Node, es: seq<DirEntry>,
                                       gone: set<nat>)
    requires CleanSource(base.d, base.ps) && CleanId(id)
    requires Mounted(base.d, base.ps, id) == Some(fs) && NodeOf(base.d, base.ps, id, path) == Some(node)
    requires fs.list(node, false).Some? && forall e :: e in es ==> e in fs.list(node, false).value
    ensures PutsOk(base, NodePuts(fs, id, path, es, gone)) && PutsOk(base, StatPuts(fs, id, path, es, gone))
  {
    hide NodeOf, StatOf, Mounted, MakeKey, ChildPath, CleanSource, StatFromNode, PutOk;
    if es != [] {
      var n := |es| - 1;
      ChildPutsOk(base, id, path, fs, node, es[..n], gone);
      var child := Child(fs, es[n], n, gone);
      if child.Some? {
        ChildPutOk(base, id, path, fs, node, es[n], child.value);
      }
    }
  }

  // ---- every step keeps its call right ----

  /** A key is read back as what its request means. */
  lemma KeyOk(base: Base, q: Request)
    requires q.Asks() && CleanId(q.id)
    ensures NodeOf(base.d, base.ps, KeyId(Key(q)), KeyPath(Key(q))) == NodeOf(base.d, base.ps, q.id, q.path)
    ensures StatOf(base.d, base.ps, KeyId(Key(q)), KeyPath(Key(q))) == StatOf(base.d, base.ps, q.id, q.path)
    ensures BrowseOf(base.d, base.ps, KeyId(Key(q)), KeyPath(Key(q))) == BrowseOf(base.d, base.ps, q.id, q.path)
  {
    hide NodeOf, StatOf, BrowseOf, KeyId, KeyPath, Normalize, Components;
    NormalizeSound(q.path);
    KeyMeaning(base.d, base.ps, q.id, q.path);
  }

  /** Failing is right where nothing is mounted, and on a flaky device anywhere. */
  lemma FailedOk(base: Base, q: Request)
    requires q.Asks() && (base.flaky || NodeOf(base.d, base.ps, q.id, q.path) == None)
    ensures AnswerOk(base.d, base.ps, q, Failed(q), base.flaky)
  {
    hide NodeOf, Mounted, FindPartition, ProbeAt, ReadOk, ReadBytes;
    StatMeaning(base.d, base.ps, q.id, q.path);
  }

  lemma ToProbeOk(base: Base, q: Request)
    requires q.Asks() && CleanId(q.id)
    ensures PhaseOk(base, q, ToProbe(base, q))
  {
    hide NodeOf, StatOf, BrowseOf, FileBytes, FindPartition, VolumeOf, AnswerOk, CleanId;
    match FindPartition(base.ps, q.id)
    case None =>
      NothingMounted(base.d, base.ps, q.id, q.path);
      FailedOk(base, q);
    case Some(p) =>
      if p.kind != TYPE_PFS {
        ProbeNeedsPfs(VolumeOf(base.d, p), p.kind, p.IsSub());
        NothingMounted(base.d, base.ps, q.id, q.path);
        FailedOk(base, q);
      }
  }

  lemma ProbedOk(base: Base, q: Request, r: ProbeResult)
    requires q.Asks() && CleanId(q.id) && ProbeOk(base.d, base.ps, q.id, r, base.flaky)
    ensures PhaseOk(base, q, Probed(q, r))
  {
    hide NodeOf, StatOf, BrowseOf, FileBytes, FindPartition, VolumeOf, AnswerOk, CleanId, ProbeAt;
    if !r.valid {
      NothingMounted(base.d, base.ps, q.id, q.path);
      FailedOk(base, q);
    }
  }

  lemma {:induction false} ProbeDiskOk(base: Base, id: string, p: ApaScan.Partition, choice: Choice)
    requires FindPartition(base.ps, id) == Some(p)
    ensures ProbeOk(base.d, base.ps, id, ProbeDisk(base, p, choice), base.flaky)
  {
    hide FindPartition, VolumeOf, SuperAt;
  }

  lemma EnterOk(base: Base, c: Caches, q: Request, choice: Choice)
    requires CachesOk(base, c) && q.Asks() && CleanId(q.id)
    ensures PhaseOk(base, q, Step(base, c, q, Enter, choice).1)
  {
    hide NodeOf, StatOf, BrowseOf, FileBytes, FindPartition, CleanId, KeyId, KeyPath, ToProbe, Key;
    KeyOk(base, q);
    ToProbeOk(base, q);
  }

  lemma SeekNodeOk(base: Base, c: Caches, q: Request, mounted: Option<SuperBlock>, choice: Choice)
    requires CachesOk(base, c) && PhaseOk(base, q, SeekNode(mounted)) && CanAdvance(base, q, SeekNode(mounted))
    ensures PhaseOk(base, q, Step(base, c, q, SeekNode(mounted), choice).1)
  {
    hide NodeOf, StatOf, BrowseOf, FileBytes, FindPartition, CleanId, KeyId, KeyPath, ToProbe, Key, Normalize,
      StatFromNode, MountedBy;
    KeyOk(base, q);
    ToProbeOk(base, q);
    StatMeaning(base.d, base.ps, q.id, q.path);
  }

  /** What a resolved request puts under its own key is right. */
  lemma OwnPutsOk(base: Base, q: Request, node: Node)
    requires q.Asks() && CleanId(q.id) && NodeOf(base.d, base.ps, q.id, q.path) == Some(node)
    ensures PutOk(base, PutNode(Key(q), node))
    ensures PutOk(base, PutStat(Key(q), StatFromNode(Normalize(q.path), node)))
  {
    hide NodeOf, StatOf, BrowseOf, CleanId, KeyId, KeyPath, Key, Normalize, StatFromNode;
    KeyOk(base, q);
    StatMeaning(base.d, base.ps, q.id, q.path);
  }

  lemma ListOk(base: Base, q: Request, fs: Fs, node: Node, es: seq<DirEntry>, gone: set<nat>)
    requires CleanSource(base.d, base.ps) && q.List? && CleanId(q.id) && (!base.flaky ==> gone == {})
    requires Mounted(base.d, base.ps, q.id) == Some(fs) && Resolve(fs, Normalize(q.path)) == Some(node)
    requires Kind(node.inode.mode) == MODE_DIRECTORY && fs.list(node, false) == Some(es)
    ensures PutsOk(base, ListPuts(fs, q, node, es, gone))
    ensures AnswerOk(base.d, base.ps, q, Lines(Some(SeenLines(fs, es, gone))), base.flaky)
  {
    hide NodeOf, StatOf, BrowseOf, Mounted, CleanSource, CleanId, KeyId, KeyPath, Key, Normalize, StatFromNode, Resolve,
      Degraded, NodePuts, StatPuts, SeenLines, LinesOf;
    MountedNode(base.d, base.ps, q.id, q.path, fs);
    SeenLinesOk(fs, es, gone);
    OwnPutsOk(base, q, node);
    KeyOk(base, q);
    ChildPutsOk(base, q.id, Normalize(q.path), fs, node, es, gone);
  }

  lemma FromDiskOk(base: Base, q: Request, fs: Fs, sb: SuperBlock, choice: Choice)
    requires CleanSource(base.d, base.ps) && q.Asks() && CleanId(q.id) && MountedBy(base, q.id, sb)
    requires Mounted(base.d, base.ps, q.id) == Some(fs)
    ensures PhaseOk(base, q, FromDisk(base, q, fs, sb, choice))
  {
    hide NodeOf, StatOf, BrowseOf, FileBytes, Mounted, CleanSource, CleanId, MountedBy, Key, Normalize, StatFromNode,
      Resolve, SeenLines, ListPuts, PutOk, ListingOk;
    MountedNode(base.d, base.ps, q.id, q.path, fs);
    StatMeaning(base.d, base.ps, q.id, q.path);
    match Resolve(fs, Normalize(q.path))
    case None => FailedOk(base, q);
    case Some(node) =>
      OwnPutsOk(base, q, node);
      if q.List? && Kind(node.inode.mode) == MODE_DIRECTORY && fs.list(node, false).Some? {
        ListOk(base, q, fs, node, fs.list(node, false).value, if base.flaky then choice.gone else {});
      }
  }

  lemma DeliveredOk(base: Base, q: Request, p: ApaScan.Partition, sb: SuperBlock, node: Node, choice: Choice)
    requires q.Fetch? && NodeOk(base, q, sb, node) && FindPartition(base.ps, q.id) == Some(p)
    ensures AnswerOk(base.d, base.ps, q, Delivered(base, q, VolumeOf(base.d, p), sb, node, choice), base.flaky)
  {
    hide NodeOf, FindPartition, ProbeAt, ReadOk, ReadBytes, FileBytes;
    FileBytesOfNode(base.d, base.ps, q.id, q.path, q.offset, q.length, p, sb);
  }

  /**
   * Whatever the others have done to the caches meanwhile, a step keeps them and its own call right,
   * and what it inserts last is there for the next call.
   */
  lemma StepOk(base: Base, c: Caches, q: Request, phase: Phase, choice: Choice)
    requires CleanSource(base.d, base.ps)
    requires CachesOk(base, c) && PhaseOk(base, q, phase) && CanAdvance(base, q, phase)
    ensures var r := Step(base, c, q, phase, choice); CachesOk(base, r.0) && PhaseOk(base, q, r.1)
    ensures phase.Keep? && phase.puts != [] ==>
      Held(Step(base, c, q, phase, choice).0, phase.puts[|phase.puts| - 1])
  {
    hide Held, CachesOk, CleanSource, CleanId, NodeOf, FindPartition, ProbeAt, AnswerOk, FromDisk, Delivered, ProbeDisk,
      Probed, ToProbe, Key, PutAll, PutsOk, PutInto;
    match phase
    case Enter => EnterOk(base, c, q, choice);
    case SeekNode(mounted) => SeekNodeOk(base, c, q, mounted, choice);
    case SeekProbe =>
      if q.id in c.probes {
        CachedProbeOk(base, c, q.id);
        ProbedOk(base, q, c.probes[q.id]);
      } else {
        ProbeDiskOk(base, q.id, FindPartition(base.ps, q.id).value, choice);
      }
    case KeepProbe(probe) =>
      PutProbeOk(base, c, q.id, probe, choice.pick);
      ProbedOk(base, q, probe);
    case AskDisk(sb) =>
      if choice.fail && base.flaky {
        FailedOk(base, q);
      } else {
        FromDiskOk(base, q, FsOf(VolumeOf(base.d, FindPartition(base.ps, q.id).value), sb), sb, choice);
      }
    case Keep(puts, next) => PutAllOk(base, c, puts, choice.pick);
    case Deliver(sb, node) => DeliveredOk(base, q, FindPartition(base.ps, q.id).value, sb, node, choice);
  }

  lemma CachedProbeOk(base: Base, c: Caches, id: string)
    requires CachesOk(base, c) && id in c.probes
    ensures ProbeOk(base.d, base.ps, id, c.probes[id], base.flaky)
  {
    hide ProbeOk, NodesOk, StatsOk, BrowsesOk;
  }

  lemma ActionOk(base: Base, s: State, act: Action)
    requires CleanSource(base.d, base.ps) && SessionOk(base, s) && Enabled(base, s, act)
    requires act.Start? ==> CleanId(act.q.id)
    ensures SessionOk(base, Apply(base, s, act))
  {
    hide CachesOk, PhaseOk, Step, CleanSource, CanAdvance;
    match act
    case Start(t, q) => EnterIsOk(base, q);
    case Advance(t, choice) => StepOk(base, s.caches, s.threads[t].q, s.threads[t].phase, choice);
    case Clear => NoCachesOk(base);
  }

  lemma EnterIsOk(base: Base, q: Request)
    requires q.Asks() && CleanId(q.id)
    ensures PhaseOk(base, q, Enter)
  {
  }

  lemma NoCachesOk(base: Base)
    ensures CachesOk(base, Caches(map[], map[], map[], map[]))
  {
    NothingCached(base.d, base.ps, base.flaky);
  }

  /**
   * In every state any interleaving of calls and clears reaches, over an unambiguous source: the
   * caches keep their bounds and hold what an uncached session would answer, every call still under
   * way is right so far, and every reply is the uncached one, up to failures of a flaky device.
   */
  lemma {:induction false} RepliesAreUncached(base: Base, n: nat, acts: seq<Action>)
    requires After(base, n, acts).Some? && CleanRun(base, acts)
    ensures SessionOk(base, After(base, n, acts).value)
  {
    hide CachesOk, PhaseOk, Apply, Enabled, CleanSource;
    if acts == [] {
      NoCachesOk(base);
    } else {
      var front, last := acts[..|acts| - 1], acts[|acts| - 1];
      RepliesAreUncached(base, n, front);
      StartAsks(base, After(base, n, front).value, last);
      ActionOk(base, After(base, n, front).value, last);
    }
  }

  lemma StartAsks(base: Base, s: State, act: Action)
    requires Enabled(base, s, act)
    ensures act.Start? ==> act.q.Asks()
  {
  }

  // ---- every call ends by its own steps ----

  /** How many steps a call still makes at most. */
  function Rank(phase: Phase): nat {
    match phase
    case Enter => 8
    case SeekNode(mounted) => if mounted.None? then 7 else 4
    case SeekProbe => 6
    case KeepProbe(_) => 5
    case AskDisk(_) => 3
    case Keep(_, next) => if next.Reply? then 1 else 2
    case Deliver(_, _) => 1
    case Replied(_) => 0
  }

  lemma StepDescends(base: Base, c: Caches, q: Request, phase: Phase, choice: Choice)
    requires CanAdvance(base, q, phase)
    ensures Rank(Step(base, c, q, phase, choice).1) < Rank(phase)
  {
    hide FindPartition, Key, Resolve, PutInto, PutAll, Delivered, SeenLines, ListPuts, NodeAndStat;
  }

  lemma NotStuck(base: Base, q: Request, phase: Phase)
    requires PhaseOk(base, q, phase) && !phase.Replied?
    ensures CanAdvance(base, q, phase)
  {
    hide FindPartition, CleanId, PutsOk, AnswerOk, NodeOf, ProbeAt;
  }

  /**
   * A call under way can always take its next step, and whatever that finds it has at most seven
   * more to take; no step of another thread and no clear sets it back.
   */
  lemma {:induction false} CallsEnd(base: Base, n: nat, acts: seq<Action>, t: nat, act: Action)
    requires After(base, n, acts).Some? && CleanRun(base, acts) && t < |After(base, n, acts).value.threads|
    requires After(base, n, acts).value.threads[t].Busy? && !After(base, n, acts).value.threads[t].phase.Replied?
    requires Enabled(base, After(base, n, acts).value, act)
    ensures var s := After(base, n, acts).value; var s' := Apply(base, s, act);
      && (forall choice :: Enabled(base, s, Advance(t, choice)))
      && Rank(s.threads[t].phase) <= 8
      && (if act.Advance? && act.thread == t
          then s'.threads[t].Busy? && Rank(s'.threads[t].phase) < Rank(s.threads[t].phase)
          else s'.threads[t] == s.threads[t])
  {
    hide After, CleanRun, CachesOk, PhaseOk, CanAdvance, Step, Rank;
    RepliesAreUncached(base, n, acts);
    var s := After(base, n, acts).value;
    NotStuck(base, s.threads[t].q, s.threads[t].phase);
    RankBound(s.threads[t].phase);
    if act.Advance? && act.thread == t {
      StepDescends(base, s.caches, s.threads[t].q, s.threads[t].phase, act.choice);
    }
  }

  lemma RankBound(phase: Phase)
    ensures Rank(phase) <= 8
  {
  }

  // ---- a failure of the device can be remembered ----

  /** Some run of two threads ends in `s` without a failing read in a call of the second. */
  ghost predicate Untroubled(base: Base, s: State) {
    exists acts :: After(base, 2, acts) == Some(s) && forall i :: 0 <= i < |acts| ==> !Fails(acts[i], 1)
  }

  predicate Fails(act: Action, t: nat) {
    act.Advance? && act.thread == t && act.choice.fail
  }

  lemma UntroubledOn(base: Base, s: State, act: Action)
    requires Untroubled(base, s) && Enabled(base, s, act) && !Fails(act, 1)
    ensures Untroubled(base, Apply(base, s, act))
  {
    hide Enabled, Apply, Fresh, Fails;
    var acts :| After(base, 2, acts) == Some(s) && forall i :: 0 <= i < |acts| ==> !Fails(acts[i], 1);
    var more := acts + [act];
    assert more[..|acts|] == acts && more[|acts|] == act;
    assert After(base, 2, more) == Some(Apply(base, s, act));
  }

  /**
   * Why failures are exact only on a steady device: on any flaky one, once the probe of a mounted
   * partition has failed in one call, the next call fails as well, though none of its own reads did.
   */
  lemma FailureIsRemembered(base: Base, q: Request, sb: SuperBlock)
    requires base.flaky && q.List? && MountedBy(base, q.id, sb)
    ensures exists s :: Untroubled(base, s) && |s.threads| == 2 && s.threads[1] == Busy(q, Replied(Lines(None)))
  {
    hide Untroubled, FindPartition, ProbeAt, VolumeOf, Key;
    var bad, good := Choice(true, {}, false, _ => ""), Choice(false, {}, false, _ => "");
    NothingYet(base);
    MountedIsPfs(base, q.id, sb);
    var s := Fresh(2);
    var run := [Start(0, q), Advance(0, bad), Advance(0, bad), Advance(0, bad),
                Start(1, q), Advance(1, good), Advance(1, good)];
    UntroubledOn(base, s, run[0]);
    s := Apply(base, s, run[0]);
    UntroubledOn(base, s, run[1]);
    s := Apply(base, s, run[1]);
    assert s.threads[0].phase == SeekProbe;
    UntroubledOn(base, s, run[2]);
    s := Apply(base, s, run[2]);
    UntroubledOn(base, s, run[3]);
    s := Apply(base, s, run[3]);
    assert q.id in s.caches.probes && !s.caches.probes[q.id].valid;
    UntroubledOn(base, s, run[4]);
    s := Apply(base, s, run[4]);
    UntroubledOn(base, s, run[5]);
    s := Apply(base, s, run[5]);
    UntroubledOn(base, s, run[6]);
    s := Apply(base, s, run[6]);
  }

  lemma NothingYet(base: Base)
    ensures Untroubled(base, Fresh(2))
  {
    assert After(base, 2, []) == Some(Fresh(2));
  }

  lemma {:induction false} MountedIsPfs(base: Base, id: string, sb: SuperBlock)
    requires MountedBy(base, id, sb)
    ensures FindPartition(base.ps, id).Some? && FindPartition(base.ps, id).value.kind == TYPE_PFS
  {
    hide FindPartition;
  }
}
