/**
 * The read-only namespace shown to the host: `src/host/mount_view.cpp`. Partitions and PFS entries
 * appear under aliases the host can hold, and every shown name leads back to what it was made from.
 */
module MountView {
  import opened Bytes
  import opened Disk
  import opened PfsFormat
  import opened PfsStream
  import opened PfsDirectory
  import opened Paths
  import opened PfsResolve
  import opened DriveSession
  import opened HostNames
  import ApaLayout
  import ApaScan

  datatype NodeKind = Root | Namespace | PfsDirectory | PfsFile

  /** What a mounted path denotes. */
  datatype Place = Place(kind: NodeKind, partition: string, path: string, size: nat)

  /** Something to be shown under an alias of its name. */
  datatype Item = Item(name: string, kind: NodeKind, size: nat)

  datatype AliasEntry = AliasEntry(visible: string, backing: string, kind: NodeKind, size: nat)

  datatype MountEntry = MountEntry(name: string, kind: NodeKind, size: nat)

  /** What the namespace is built on: the scanned partitions and the session's directory listings. */
  datatype Backing = Backing(partitions: seq<ApaScan.Partition>, browse: (string, string) -> Option<seq<SessionEntry>>)

  function BackingOf(d: Disk, ps: seq<ApaScan.Partition>): Backing {
    Backing(ps, (id, path) => BrowseOf(d, ps, id, path))
  }

  // ---- aliases ----

  /** What one line of a listing adds to what is shown. */
  function ItemOf(e: SessionEntry): seq<Item> {
    if !e.readable || (!e.IsDirectory() && !e.IsRegular()) then []
    else [Item(e.name, if e.IsDirectory() then PfsDirectory else PfsFile, e.size)]
  }

  function EntryItems(entries: seq<SessionEntry>): seq<Item> {
    if entries == [] then [] else EntryItems(entries[..|entries| - 1]) + ItemOf(entries[|entries| - 1])
  }

  function PartitionItems(ps: seq<ApaScan.Partition>): seq<Item> {
    if ps == [] then []
    else
      var before, p := PartitionItems(ps[..|ps| - 1]), ps[|ps| - 1];
      if p.IsSub() || p.kind != TYPE_PFS then before else before + [Item(p.id, PfsDirectory, 0)]
  }

  function NamesOf(items: seq<Item>): (r: seq<string>)
    ensures |r| == |items| && forall i :: 0 <= i < |r| ==> r[i] == items[i].name
  {
    seq(|items|, i requires 0 <= i < |items| => items[i].name)
  }

  /** Every item under its alias, in order. */
  ghost function AliasesOf(items: seq<Item>): (r: seq<AliasEntry>)
    ensures |r| == |items|
    ensures forall i :: 0 <= i < |r| ==>
      r[i] == AliasEntry(Aliases(NamesOf(items))[i], items[i].name, items[i].kind, items[i].size)
  {
    var names := Aliases(NamesOf(items));
    seq(|items|, i requires 0 <= i < |items| => AliasEntry(names[i], items[i].name, items[i].kind, items[i].size))
  }

  lemma AliasesOfSnoc(items: seq<Item>, item: Item)
    ensures AliasesOf(items + [item]) ==
      AliasesOf(items) + [AliasEntry(Alias(item.name, UpperSet(Aliases(NamesOf(items)))), item.name, item.kind,
                                     item.size)]
  {
    hide Aliases, Alias, UpperSet;
    AliasesSnoc(NamesOf(items), item.name);
    assert NamesOf(items + [item]) == NamesOf(items) + [item.name];
  }

  /** One more alias, and its upper-case form claimed. */
  method AddAlias(aliases: seq<AliasEntry>, used: set<string>, item: Item, ghost items: seq<Item>)
    returns (aliases': seq<AliasEntry>, used': set<string>)
    requires aliases == AliasesOf(items) && used == UpperSet(Aliases(NamesOf(items)))
    ensures aliases' == AliasesOf(items + [item]) && used' == UpperSet(Aliases(NamesOf(items + [item])))
  {
    hide Aliases, Alias, UpperSet;
    ghost var names := NamesOf(items);
    AliasesSnoc(names, item.name);
    assert NamesOf(items + [item]) == names + [item.name];
    AliasesOfSnoc(items, item);
    UpperSetSnoc(Aliases(names), Alias(item.name, used));
    var visible, claimed := ClaimAlias(item.name, used);
    aliases' := aliases + [AliasEntry(visible, item.name, item.kind, item.size)];
    used' := claimed;
  }

  lemma NothingShown()
    ensures AliasesOf([]) == [] && UpperSet(Aliases(NamesOf([]))) == {}
  {
  }

  method MakeEntryAliases(entries: seq<SessionEntry>) returns (aliases: seq<AliasEntry>)
    ensures aliases == AliasesOf(EntryItems(entries))
  {
    hide AliasesOf, UpperSet, Aliases;
    aliases := [];
    var used: set<string> := {};
    NothingShown();
    assert entries[..0] == [];
    for i := 0 to |entries|
      invariant aliases == AliasesOf(EntryItems(entries[..i]))
      invariant used == UpperSet(Aliases(NamesOf(EntryItems(entries[..i]))))
    {
      var entry := entries[i];
      assert entries[..i + 1][..i] == entries[..i];
      if !entry.readable || (!entry.IsDirectory() && !entry.IsRegular()) {
        assert EntryItems(entries[..i]) + [] == EntryItems(entries[..i]);
        continue;
      }
      aliases, used := AddAlias(aliases, used,
        Item(entry.name, if entry.IsDirectory() then PfsDirectory else PfsFile, entry.size), EntryItems(entries[..i]));
    }
    assert entries[..|entries|] == entries;
  }

  method MakePartitionAliases(ps: seq<ApaScan.Partition>) returns (aliases: seq<AliasEntry>)
    ensures aliases == AliasesOf(PartitionItems(ps))
  {
    hide AliasesOf, UpperSet, Aliases;
    aliases := [];
    var used: set<string> := {};
    NothingShown();
    assert ps[..0] == [];
    for i := 0 to |ps|
      invariant aliases == AliasesOf(PartitionItems(ps[..i]))
      invariant used == UpperSet(Aliases(NamesOf(PartitionItems(ps[..i]))))
    {
      var p := ps[i];
      assert ps[..i + 1][..i] == ps[..i];
      if p.IsSub() || p.kind != TYPE_PFS {
        continue;
      }
      aliases, used := AddAlias(aliases, used, Item(p.id, PfsDirectory, 0), PartitionItems(ps[..i]));
    }
    assert ps[..|ps|] == ps;
  }

  predicate EqualWindowsName(left: string, right: string) {
    Uppercase(left) == Uppercase(right)
  }

  /** The first entry shown under a name, whatever its case. */
  function FindAlias(aliases: seq<AliasEntry>, visible: string): Option<AliasEntry> {
    if aliases == [] then None
    else if EqualWindowsName(aliases[0].visible, visible) then Some(aliases[0])
    else FindAlias(aliases[1..], visible)
  }

  lemma {:induction false} FindAliasAt(aliases: seq<AliasEntry>, i: nat, word: string)
    requires i < |aliases| && EqualWindowsName(aliases[i].visible, word)
    requires forall k :: 0 <= k < i ==> Uppercase(aliases[k].visible) != Uppercase(aliases[i].visible)
    ensures FindAlias(aliases, word) == Some(aliases[i])
  {
    hide Uppercase;
    if i > 0 {
      FindAliasAt(aliases[1..], i - 1, word);
    }
  }

  lemma {:induction false} FoundIsShown(aliases: seq<AliasEntry>, word: string) returns (i: nat)
    requires FindAlias(aliases, word).Some?
    ensures i < |aliases| && FindAlias(aliases, word) == Some(aliases[i]) && EqualWindowsName(aliases[i].visible, word)
  {
    hide Uppercase;
    if EqualWindowsName(aliases[0].visible, word) {
      i := 0;
    } else {
      i := FoundIsShown(aliases[1..], word);
      i := i + 1;
    }
  }

  // ---- the namespace ----

  function JoinPfsPath(parent: string, child: string): string {
    if parent == "" || parent == "/" then child else parent + "/" + child
  }

  function NamespaceName(): string {
    "Partitions"
  }

  function RootPlace(): Place {
    Place(Root, "", "", 0)
  }

  /** What is shown inside a place. */
  ghost function Children(b: Backing, place: Place): Option<seq<AliasEntry>> {
    match place.kind
    case Root => Some([AliasEntry(NamespaceName(), "", Namespace, 0)])
    case Namespace => Some(AliasesOf(PartitionItems(b.partitions)))
    case PfsDirectory =>
      (match b.browse(place.partition, place.path)
       case None => None
       case Some(entries) => Some(AliasesOf(EntryItems(entries))))
    case PfsFile => None
  }

  function Enter(place: Place, a: AliasEntry): Place {
    match place.kind
    case Root => Place(a.kind, "", "", a.size)
    case Namespace => Place(a.kind, a.backing, "", a.size)
    case _ => Place(a.kind, place.partition, JoinPfsPath(place.path, a.backing), a.size)
  }

  ghost function StepTo(b: Backing, place: Place, word: string): Option<Place> {
    match Children(b, place)
    case None => None
    case Some(aliases) =>
      match FindAlias(aliases, word)
      case None => None
      case Some(a) => Some(Enter(place, a))
  }

  /** What a list of components denotes, one directory at a time. */
  ghost function LookupIn(b: Backing, parts: seq<string>): Option<Place> {
    if parts == [] then Some(RootPlace())
    else
      match LookupIn(b, parts[..|parts| - 1])
      case None => None
      case Some(place) => StepTo(b, place, parts[|parts| - 1])
  }

  lemma {:induction false} LookupSnoc(b: Backing, parts: seq<string>, word: string)
    ensures LookupIn(b, parts + [word]) ==
      match LookupIn(b, parts) case None => None case Some(place) => StepTo(b, place, word)
  {
    assert (parts + [word])[..|parts|] == parts;
  }

  lemma {:induction false} LookupPrefix(b: Backing, parts: seq<string>, k: nat)
    requires k <= |parts| && LookupIn(b, parts[..k]) == None
    ensures LookupIn(b, parts) == None
    decreases |parts| - k
  {
    hide StepTo;
    if k < |parts| {
      assert parts[..k + 1][..k] == parts[..k];
      LookupPrefix(b, parts, k + 1);
    } else {
      assert parts[..k] == parts;
    }
  }

  predicate Forbidden(word: string) {
    word == "." || word == ".."
  }

  /** Shown names are legal on the host and differ in more than case. */
  lemma ChildrenShown(b: Backing, place: Place)
    requires Children(b, place).Some?
    ensures var shown := Children(b, place).value;
      && (forall i :: 0 <= i < |shown| ==> Legal(shown[i].visible))
      && (forall i, j :: 0 <= i < j < |shown| ==> Uppercase(shown[i].visible) != Uppercase(shown[j].visible))
  {
    hide NamespaceName, Legal, Aliases, Uppercase;
    match place.kind
    case Root => NamespaceIsLegal();
    case Namespace => AliasesLegalAndDistinct(NamesOf(PartitionItems(b.partitions)));
    case PfsDirectory => AliasesLegalAndDistinct(NamesOf(EntryItems(b.browse(place.partition, place.path).value)));
    case PfsFile =>
  }

  lemma NamespaceIsLegal()
    ensures Legal(NamespaceName())
  {
    hide DeviceStem, Stem, Uppercase, IllegalChar;
    var name := NamespaceName();
    NamespaceIsPlain();
    StemWhole(name);
    if DeviceStem(Uppercase(name)) {
      DeviceStemIsShort(Uppercase(name));
    }
  }

  lemma NamespaceIsPlain()
    ensures var name := NamespaceName();
      |name| == 10 && name[9] == 's' && '.' !in name && forall c :: c in name ==> !IllegalChar(c)
  {
    var name := NamespaceName();
    forall c | c in name ensures c != '.' && !IllegalChar(c) {
      var k :| 0 <= k < |name| && name[k] == c;
      assert 'A' <= name[k] <= 'z' && name[k] != '\\';
    }
  }

  lemma DeviceStemIsShort(stem: string)
    requires DeviceStem(stem)
    ensures |stem| <= 4
  {
  }

  /** A legal name is one path component, and not a dot component, in any case. */
  lemma LegalIsComponent(name: string, word: string)
    requires Legal(name) && EqualWindowsName(name, word)
    ensures IsName(word) && !Forbidden(word)
  {
    hide Reserved;
    forall c | c in word ensures !IsSeparator(c) {
      var k :| 0 <= k < |word| && word[k] == c;
      assert UpperChar(name[k]) == UpperChar(word[k]);
      assert name[k] in name && !IllegalChar(name[k]);
    }
    assert UpperChar(name[|name| - 1]) == UpperChar(word[|name| - 1]);
  }

  /** No listed name is empty, a dot component, or splits into several components. */
  lemma ListedNamesAreComponents(b: Backing, place: Place, i: nat)
    requires Children(b, place).Some? && i < |Children(b, place).value|
    ensures var name := Children(b, place).value[i].visible; IsName(name) && !Forbidden(name)
  {
    hide NamespaceName, Children, Legal, Uppercase;
    ChildrenShown(b, place);
    LegalIsComponent(Children(b, place).value[i].visible, Children(b, place).value[i].visible);
  }

  /** A listed name opens exactly the entry it was made from, in any case. */
  lemma {:induction false} ListedNameOpens(b: Backing, parts: seq<string>, place: Place, i: nat, word: string)
    requires LookupIn(b, parts) == Some(place)
    requires Children(b, place).Some? && i < |Children(b, place).value|
    requires EqualWindowsName(word, Children(b, place).value[i].visible)
    ensures var a := Children(b, place).value[i];
      && LookupIn(b, parts + [word]) == Some(Enter(place, a))
      && Enter(place, a).kind == a.kind && Enter(place, a).size == a.size
  {
    hide NamespaceName, Children, Legal, Uppercase;
    ChildrenShown(b, place);
    LookupSnoc(b, parts, word);
    FindAliasAt(Children(b, place).value, i, word);
  }

  /** The root shows one directory, and every accepted path starts at it, in any case. */
  lemma {:induction false} RootShowsPartitions(b: Backing, parts: seq<string>)
    requires parts != []
    ensures LookupIn(b, []) == Some(Place(Root, "", "", 0))
    ensures Children(b, Place(Root, "", "", 0)) == Some([AliasEntry("Partitions", "", Namespace, 0)])
    ensures Uppercase(parts[0]) == Uppercase("Partitions") ==>
      LookupIn(b, parts[..1]) == Some(Place(Namespace, "", "", 0))
    ensures Uppercase(parts[0]) != Uppercase("Partitions") ==> LookupIn(b, parts) == None
  {
    hide Uppercase;
    LookupNothing(b);
    FirstStep(b, parts);
  }

  predicate SameIgnoringCase(a: seq<string>, b: seq<string>) {
    |a| == |b| && forall i :: 0 <= i < |a| ==> EqualWindowsName(a[i], b[i])
  }

  /** Every component is a name listed in the directory the ones before it lead to. */
  ghost predicate Listed(b: Backing, parts: seq<string>) {
    parts != [] ==>
      && Listed(b, parts[..|parts| - 1])
      && LookupIn(b, parts[..|parts| - 1]).Some?
      && Shows(b, LookupIn(b, parts[..|parts| - 1]).value, parts[|parts| - 1])
  }

  ghost predicate Shows(b: Backing, place: Place, name: string) {
    && Children(b, place).Some?
    && exists i :: 0 <= i < |Children(b, place).value| && Children(b, place).value[i].visible == name
  }

  /** Case never matters. */
  lemma {:induction false} LookupIgnoresCase(b: Backing, parts: seq<string>, words: seq<string>)
    requires SameIgnoringCase(words, parts)
    ensures LookupIn(b, words) == LookupIn(b, parts)
  {
    hide NamespaceName, Children, Uppercase;
    if parts != [] {
      LookupIgnoresCase(b, parts[..|parts| - 1], words[..|words| - 1]);
      var last, word := parts[|parts| - 1], words[|words| - 1];
      assert EqualWindowsName(word, last);
      if LookupIn(b, parts[..|parts| - 1]).Some? {
        var place := LookupIn(b, parts[..|parts| - 1]).value;
        if Children(b, place).Some? {
          FindIgnoresCase(Children(b, place).value, last, word);
        }
      }
    }
  }

  lemma {:induction false} FindIgnoresCase(aliases: seq<AliasEntry>, a: string, b: string)
    requires EqualWindowsName(a, b)
    ensures FindAlias(aliases, a) == FindAlias(aliases, b)
  {
    hide NamespaceName, Uppercase;
    if aliases != [] {
      FindIgnoresCase(aliases[1..], a, b);
    }
  }

  lemma {:induction false} ListedLooksUp(b: Backing, parts: seq<string>)
    requires Listed(b, parts)
    ensures LookupIn(b, parts).Some?
  {
    hide NamespaceName, Children, Uppercase;
    if parts != [] {
      var front := parts[..|parts| - 1];
      ListedLooksUp(b, front);
      var place := LookupIn(b, front).value;
      var i :| 0 <= i < |Children(b, place).value| && Children(b, place).value[i].visible == parts[|parts| - 1];
      ListedNameOpens(b, front, place, i, parts[|parts| - 1]);
      assert parts == front + [parts[|parts| - 1]];
    }
  }

  lemma {:induction false} ListedSnoc(b: Backing, parts: seq<string>, place: Place, name: string)
    requires Listed(b, parts) && LookupIn(b, parts) == Some(place) && Shows(b, place, name)
    ensures Listed(b, parts + [name])
  {
    hide LookupIn, Shows;
    assert (parts + [name])[..|parts|] == parts;
  }

  /** Whatever lookup accepts is a listed path, up to case. */
  lemma {:induction false} AcceptedIsListed(b: Backing, words: seq<string>) returns (parts: seq<string>)
    requires LookupIn(b, words).Some?
    ensures Listed(b, parts) && SameIgnoringCase(words, parts)
  {
    hide NamespaceName, Children, Uppercase, LookupIn, FindAlias, Enter;
    if words == [] {
      parts := [];
    } else {
      var front, word := words[..|words| - 1], words[|words| - 1];
      assert words == front + [word];
      LookupSnoc(b, front, word);
      var before := AcceptedIsListed(b, front);
      LookupIgnoresCase(b, before, front);
      var place := LookupIn(b, front).value;
      var i := FoundIsShown(Children(b, place).value, word);
      var name := Children(b, place).value[i].visible;
      ListedSnoc(b, before, place, name);
      parts := before + [name];
    }
  }

  /**
   * Namespace round trip: lookup accepts exactly the paths made of listed names, in any case, and
   * gives the same kind, size and backing entry for every case.
   */
  lemma {:induction false} AcceptedIffListed(b: Backing, words: seq<string>)
    ensures LookupIn(b, words).Some? <==> exists parts :: Listed(b, parts) && SameIgnoringCase(words, parts)
    ensures forall parts :: Listed(b, parts) && SameIgnoringCase(words, parts) ==>
      LookupIn(b, words) == LookupIn(b, parts)
  {
    hide NamespaceName, LookupIn, Listed, SameIgnoringCase;
    if LookupIn(b, words).Some? {
      var parts := AcceptedIsListed(b, words);
    }
    forall parts | Listed(b, parts) && SameIgnoringCase(words, parts)
      ensures LookupIn(b, words) == LookupIn(b, parts) && LookupIn(b, words).Some?
    {
      ListedLooksUp(b, parts);
      LookupIgnoresCase(b, parts, words);
    }
  }

  /** Appending a listed name to a path string, after either separator, opens its entry. */
  lemma {:induction false} AppendedNameOpens(b: Backing, path: string, place: Place, i: nat, word: string,
                                             separator: char)
    requires LookupIn(b, Components(path)) == Some(place) && IsSeparator(separator)
    requires Children(b, place).Some? && i < |Children(b, place).value|
    requires EqualWindowsName(word, Children(b, place).value[i].visible)
    ensures LookupIn(b, Components(path + [separator] + word)) == Some(Enter(place, Children(b, place).value[i]))
  {
    hide NamespaceName, Children, Uppercase, Legal, Components, IsName, LookupIn;
    ChildrenShown(b, place);
    LegalIsComponent(Children(b, place).value[i].visible, word);
    ComponentsSnoc(path, separator);
    assert !InWord(path + [separator]);
    ComponentsWord(path + [separator], word);
    ListedNameOpens(b, Components(path), place, i, word);
  }

  /** The early refusal of dot components refuses nothing that would have been found. */
  lemma {:induction false} ForbiddenNeverFound(b: Backing, parts: seq<string>, k: nat)
    requires k < |parts| && Forbidden(parts[k])
    ensures LookupIn(b, parts) == None
  {
    hide NamespaceName, Children, Uppercase, Legal;
    var front := parts[..k];
    assert parts[..k + 1] == front + [parts[k]];
    LookupSnoc(b, front, parts[k]);
    if LookupIn(b, parts[..k + 1]).Some? {
      var place := LookupIn(b, front).value;
      ChildrenShown(b, place);
      var i := FoundIsShown(Children(b, place).value, parts[k]);
      LegalIsComponent(Children(b, place).value[i].visible, parts[k]);
      assert false;
    }
    LookupPrefix(b, parts, k + 1);
  }

  // ---- a partition alias opens the first partition with its id ----

  /** Which partition each shown item was made from. */
  function PartitionSources(ps: seq<ApaScan.Partition>): seq<nat> {
    if ps == [] then []
    else
      var before, p := PartitionSources(ps[..|ps| - 1]), ps[|ps| - 1];
      if p.IsSub() || p.kind != TYPE_PFS then before else before + [|ps| - 1]
  }

  lemma {:induction false} PartitionSource(ps: seq<ApaScan.Partition>, i: nat)
    requires i < |PartitionItems(ps)|
    ensures |PartitionSources(ps)| == |PartitionItems(ps)|
    ensures var j := PartitionSources(ps)[i];
      && j < |ps| && !ps[j].IsSub() && ps[j].kind == TYPE_PFS
      && PartitionItems(ps)[i] == Item(ps[j].id, PfsDirectory, 0)
  {
    var front := ps[..|ps| - 1];
    PartitionSourcesMatch(front);
    if i < |PartitionItems(front)| {
      PartitionSource(front, i);
    }
  }

  lemma {:induction false} PartitionSourcesMatch(ps: seq<ApaScan.Partition>)
    ensures |PartitionSources(ps)| == |PartitionItems(ps)|
  {
    if ps != [] {
      PartitionSourcesMatch(ps[..|ps| - 1]);
    }
  }

  /** Every main PFS partition is shown, in scan order, under an alias of its id. */
  lemma {:induction false} PartitionsShown(ps: seq<ApaScan.Partition>)
    ensures var at, items := PartitionSources(ps), PartitionItems(ps);
      && |at| == |items|
      && (forall j, k :: 0 <= j < k < |at| ==> at[j] < at[k])
      && (forall k :: 0 <= k < |at| ==> at[k] < |ps| && items[k] == Item(ps[at[k]].id, PfsDirectory, 0))
      && forall i :: 0 <= i < |ps| ==> (i in at <==> ps[i].flags % 2 == 0 && ps[i].kind == 0x0100)
  {
    if ps != [] {
      var n, front := |ps| - 1, ps[..|ps| - 1];
      PartitionsShown(front);
      var before, at := PartitionSources(front), PartitionSources(ps);
      forall i | 0 <= i < |ps| ensures i in at <==> ps[i].flags % 2 == 0 && ps[i].kind == 0x0100 {
        assert n !in before;
        assert i < n ==> ps[i] == front[i];
      }
    }
  }

  /** `n` is the first main partition, of any type, with an id. */
  predicate IsFirstMain(ps: seq<ApaScan.Partition>, id: string, n: nat) {
    && n < |ps| && !ps[n].IsSub() && ps[n].id == id
    && forall k :: 0 <= k < n ==> ps[k].IsSub() || ps[k].id != id
  }

  lemma {:induction false} FindPartitionIsFirst(ps: seq<ApaScan.Partition>, id: string) returns (n: nat)
    requires FindPartition(ps, id).Some?
    ensures IsFirstMain(ps, id, n) && FindPartition(ps, id) == Some(ps[n])
  {
    if !ps[0].IsSub() && ps[0].id == id {
      n := 0;
    } else {
      n := FindPartitionIsFirst(ps[1..], id);
      n := n + 1;
    }
  }

  lemma {:induction false} FirstIsFound(ps: seq<ApaScan.Partition>, id: string, n: nat)
    requires IsFirstMain(ps, id, n)
    ensures FindPartition(ps, id) == Some(ps[n])
  {
    if n > 0 {
      FirstIsFound(ps[1..], id, n - 1);
    }
  }

  /**
   * The partition an alias opens is the first main partition with the id behind it. That is the one
   * the alias was made from exactly when no main partition before it, PFS or not, has the same id.
   */
  lemma PartitionOpensOwnIff(b: Backing, i: nat) returns (n: nat)
    requires i < |PartitionItems(b.partitions)|
    ensures |PartitionSources(b.partitions)| == |PartitionItems(b.partitions)|
    ensures var ps, j := b.partitions, PartitionSources(b.partitions)[i];
      var id := Enter(Place(Namespace, "", "", 0), AliasesOf(PartitionItems(ps))[i]).partition;
      && n <= j < |ps| && ps[j].kind == TYPE_PFS && FindPartition(ps, id) == Some(ps[n])
      && (n == j <==> forall k :: 0 <= k < j && !ps[k].IsSub() ==> ps[k].id != ps[j].id)
  {
    hide Aliases, PartitionItems, PartitionSources;
    var ps := b.partitions;
    PartitionSource(ps, i);
    var j := PartitionSources(ps)[i];
    n := j;
    while exists k :: 0 <= k < n && !ps[k].IsSub() && ps[k].id == ps[j].id
      invariant n <= j && !ps[n].IsSub() && ps[n].id == ps[j].id
      decreases n
    {
      var k :| 0 <= k < n && !ps[k].IsSub() && ps[k].id == ps[j].id;
      n := k;
    }
    FirstIsFound(ps, ps[j].id, n);
  }

  /** A disk where it is not: two PFS partitions of one id are shown, and the second alias opens the first. */
  lemma ShadowedPartitionExists()
    ensures exists d, ps :: ApaScan.Accepted(d, ps, MAX_HEADERS) && Shadowed(ps)
  {
    hide ApaScan.Accepted, ApaLayout.DiskOf, Aliases;
    ApaLayout.PlainAccepted(["A", "A"], TYPE_PFS, MAX_HEADERS);
    var ps := ApaLayout.Listed(ApaLayout.Plain(["A", "A"], TYPE_PFS));
    assert ps[..1] == [ps[0]] && ps[..1][..0] == [];
    assert PartitionItems(ps[..1]) == [Item("A", PfsDirectory, 0)];
    assert Shadowed(ps);
  }

  /** Both partitions are shown, and both aliases open the first. */
  ghost predicate Shadowed(ps: seq<ApaScan.Partition>) {
    && |ps| == |PartitionItems(ps)| == 2 && ps[0] != ps[1]
    && forall i :: 0 <= i < 2 ==>
      FindPartition(ps, Enter(Place(Namespace, "", "", 0), AliasesOf(PartitionItems(ps))[i]).partition) == Some(ps[0])
  }

  // ---- everything a directory holds is shown ----

  /** The kinds of node a host can be shown. */
  predicate Showable(fs: Fs, e: DirEntry) {
    match fs.inode(e.inode)
    case None => false
    case Some(child) => Kind(child.inode.mode) == MODE_DIRECTORY || Kind(child.inode.mode) == MODE_REGULAR
  }

  /** `name`, `kind` and `size` are those of a directory entry and its inode. */
  predicate Presents(fs: Fs, e: DirEntry, name: string, kind: NodeKind, size: nat)
    requires Showable(fs, e)
  {
    var child := fs.inode(e.inode).value.inode;
    name == e.name && size == child.size && kind == if Kind(child.mode) == MODE_DIRECTORY then PfsDirectory else PfsFile
  }

  /** `at` are, in order, the positions of the entries whose inode can be read and is a directory or a file. */
  ghost predicate PicksShowable(fs: Fs, es: seq<DirEntry>, at: seq<nat>) {
    && (forall k :: 0 <= k < |at| ==> at[k] < |es|)
    && (forall j, k :: 0 <= j < k < |at| ==> at[j] < at[k])
    && forall i :: 0 <= i < |es| ==> (i in at <==> Showable(fs, es[i]))
  }

  ghost predicate ItemsMatch(fs: Fs, es: seq<DirEntry>, at: seq<nat>, items: seq<Item>)
    requires PicksShowable(fs, es, at)
  {
    && |items| == |at|
    && forall k :: 0 <= k < |at| ==> at[k] in at && Presents(fs, es[at[k]], items[k].name, items[k].kind, items[k].size)
  }

  ghost predicate AliasesMatch(fs: Fs, es: seq<DirEntry>, at: seq<nat>, shown: seq<AliasEntry>)
    requires PicksShowable(fs, es, at)
  {
    && |shown| == |at|
    && forall k :: 0 <= k < |at| ==>
      at[k] in at && Presents(fs, es[at[k]], shown[k].backing, shown[k].kind, shown[k].size)
  }

  lemma LineShown(fs: Fs, e: DirEntry)
    ensures !Showable(fs, e) ==> ItemOf(LineOf(fs, e)) == []
    ensures Showable(fs, e) ==>
      var items := ItemOf(LineOf(fs, e));
      |items| == 1 && Presents(fs, e, items[0].name, items[0].kind, items[0].size)
  {
  }

  /** One more entry is one more position exactly where it can be shown. */
  lemma {:induction false} PicksSnoc(fs: Fs, es: seq<DirEntry>, e: DirEntry, at: seq<nat>)
    requires PicksShowable(fs, es, at)
    ensures PicksShowable(fs, es + [e], if Showable(fs, e) then at + [|es|] else at)
  {
    hide Showable;
    var all, more := es + [e], if Showable(fs, e) then at + [|es|] else at;
    forall i | 0 <= i < |all| ensures i in more <==> Showable(fs, all[i]) {
      assert |es| !in at;
      if i < |es| {
        assert all[i] == es[i];
      }
    }
  }

  lemma {:induction false} ItemsSnoc(fs: Fs, es: seq<DirEntry>, e: DirEntry, at: seq<nat>, items: seq<Item>)
    requires PicksShowable(fs, es, at) && ItemsMatch(fs, es, at, items)
    ensures var more := if Showable(fs, e) then at + [|es|] else at;
      PicksShowable(fs, es + [e], more) && ItemsMatch(fs, es + [e], more, items + ItemOf(LineOf(fs, e)))
  {
    hide Showable, ItemOf, LineOf, Presents, PicksShowable, ItemsMatch;
    PicksSnoc(fs, es, e, at);
    LineShown(fs, e);
    if Showable(fs, e) {
      var item := ItemOf(LineOf(fs, e))[0];
      assert ItemOf(LineOf(fs, e)) == [item];
      OneMoreMatches(fs, es, e, at, items, item);
    } else {
      assert items + [] == items;
      StillMatch(fs, es, e, at, items);
    }
  }

  lemma {:induction false} StillMatch(fs: Fs, es: seq<DirEntry>, e: DirEntry, at: seq<nat>, items: seq<Item>)
    requires PicksShowable(fs, es, at) && ItemsMatch(fs, es, at, items)
    requires !Showable(fs, e)
    ensures PicksShowable(fs, es + [e], at) && ItemsMatch(fs, es + [e], at, items)
  {
    hide Showable, Presents, PicksShowable;
    PicksSnoc(fs, es, e, at);
    forall k | 0 <= k < |at| ensures at[k] < |es| && (es + [e])[at[k]] == es[at[k]] {
      PicksInside(fs, es, at, k);
    }
  }

  lemma {:induction false} OneMoreMatches(fs: Fs, es: seq<DirEntry>, e: DirEntry, at: seq<nat>, items: seq<Item>,
                                          item: Item)
    requires PicksShowable(fs, es, at) && ItemsMatch(fs, es, at, items)
    requires Showable(fs, e) && Presents(fs, e, item.name, item.kind, item.size)
    ensures PicksShowable(fs, es + [e], at + [|es|]) && ItemsMatch(fs, es + [e], at + [|es|], items + [item])
  {
    hide Showable, Presents, PicksShowable;
    PicksSnoc(fs, es, e, at);
    forall k | 0 <= k < |at| ensures at[k] < |es| && (es + [e])[at[k]] == es[at[k]] {
      PicksInside(fs, es, at, k);
    }
  }

  lemma PicksInside(fs: Fs, es: seq<DirEntry>, at: seq<nat>, k: nat)
    requires PicksShowable(fs, es, at) && k < |at|
    ensures at[k] < |es| && Showable(fs, es[at[k]])
  {
    hide Showable;
    assert at[k] in at;
  }

  lemma {:induction false} ItemsAreAllShowable(fs: Fs, es: seq<DirEntry>)
    ensures exists at :: PicksShowable(fs, es, at) && ItemsMatch(fs, es, at, EntryItems(LinesOf(fs, es)))
  {
    hide ItemOf, LineOf, Showable, PicksShowable, ItemsMatch;
    if es == [] {
      NothingPicked(fs);
    } else {
      var front, e := es[..|es| - 1], es[|es| - 1];
      ItemsAreAllShowable(fs, front);
      var items := EntryItems(LinesOf(fs, front));
      var at :| PicksShowable(fs, front, at) && ItemsMatch(fs, front, at, items);
      ItemsSnoc(fs, front, e, at, items);
      assert es == front + [e];
      assert LinesOf(fs, es)[..|LinesOf(fs, es)| - 1] == LinesOf(fs, front);
      assert EntryItems(LinesOf(fs, es)) == items + ItemOf(LineOf(fs, e));
    }
  }

  lemma NothingPicked(fs: Fs)
    ensures PicksShowable(fs, [], []) && ItemsMatch(fs, [], [], [])
  {
  }

  /**
   * A directory shows exactly its entries whose inode can be read and is a directory or a regular
   * file, in their order, each with that kind and size; it can be listed exactly when the session
   * finds a directory there and can list it.
   */
  lemma DirectoryShowsAll(d: Disk, ps: seq<ApaScan.Partition>, place: Place)
    requires place.kind == PfsDirectory
    ensures var fs, node := Mounted(d, ps, place.partition), NodeOf(d, ps, place.partition, place.path);
      var shown := Children(BackingOf(d, ps), place);
      && (shown.Some? <==>
        && fs.Some? && node.Some? && Kind(node.value.inode.mode) == MODE_DIRECTORY
        && fs.value.list(node.value, false).Some?)
      && (shown.Some? ==>
        var es := fs.value.list(node.value, false).value;
        exists at :: PicksShowable(fs.value, es, at) && AliasesMatch(fs.value, es, at, shown.value))
  {
    hide Mounted, NodeOf, EntryItems, LinesOf, Aliases, Showable, Presents;
    var shown := Children(BackingOf(d, ps), place);
    if shown.Some? {
      var fs, node := Mounted(d, ps, place.partition).value, NodeOf(d, ps, place.partition, place.path).value;
      var es := fs.list(node, false).value;
      ItemsAreAllShowable(fs, es);
      var items := EntryItems(LinesOf(fs, es));
      var at :| PicksShowable(fs, es, at) && ItemsMatch(fs, es, at, items);
      assert AliasesMatch(fs, es, at, AliasesOf(items));
    }
  }

  /** Following a name from a directory leads to one of its entries. */
  ghost predicate Opens(b: Backing, parts: seq<string>, word: string, place: Place, fs: Fs, e: DirEntry)
    requires Showable(fs, e)
  {
    match LookupIn(b, parts + [word])
    case None => false
    case Some(p) =>
      && p.partition == place.partition && p.path == JoinPfsPath(place.path, e.name)
      && Presents(fs, e, e.name, p.kind, p.size)
  }

  lemma {:induction false} ShownOpens(b: Backing, parts: seq<string>, place: Place, fs: Fs, e: DirEntry, k: nat)
    requires LookupIn(b, parts) == Some(place) && place.kind == PfsDirectory && Showable(fs, e)
    requires Children(b, place).Some? && k < |Children(b, place).value|
    requires var a := Children(b, place).value[k]; Presents(fs, e, a.backing, a.kind, a.size)
    ensures IsName(Children(b, place).value[k].visible)
    ensures Opens(b, parts, Children(b, place).value[k].visible, place, fs, e)
  {
    hide LookupIn, Children, Showable, Uppercase, IsName, JoinPfsPath, NamespaceName;
    ListedNameOpens(b, parts, place, k, Children(b, place).value[k].visible);
    ListedNamesAreComponents(b, place, k);
  }

  /** So every directory and file below an accepted path is opened by some name shown there. */
  lemma {:induction false} EveryEntryOpens(d: Disk, ps: seq<ApaScan.Partition>, parts: seq<string>, place: Place,
                                           fs: Fs, node: Node, i: nat)
    requires LookupIn(BackingOf(d, ps), parts) == Some(place) && place.kind == PfsDirectory
    requires Mounted(d, ps, place.partition) == Some(fs) && NodeOf(d, ps, place.partition, place.path) == Some(node)
    requires Kind(node.inode.mode) == MODE_DIRECTORY && fs.list(node, false).Some?
    requires i < |fs.list(node, false).value| && Showable(fs, fs.list(node, false).value[i])
    ensures var b, e := BackingOf(d, ps), fs.list(node, false).value[i];
      exists word :: IsName(word) && Opens(b, parts, word, place, fs, e)
  {
    hide Mounted, NodeOf, LookupIn, Children, Showable, Presents, IsName, Opens, Kind;
    var b, es := BackingOf(d, ps), fs.list(node, false).value;
    DirectoryShowsAll(d, ps, place);
    var shown := Children(b, place).value;
    var at :| PicksShowable(fs, es, at) && AliasesMatch(fs, es, at, shown);
    var k :| 0 <= k < |at| && at[k] == i;
    assert Presents(fs, es[i], shown[k].backing, shown[k].kind, shown[k].size);
    ShownOpens(b, parts, place, fs, es[i], k);
  }

  // ---- places are the nodes their backing paths resolve to ----

  lemma {:induction false} ItemsAreLines(fs: Fs, es: seq<DirEntry>, i: nat) returns (e: DirEntry)
    requires i < |EntryItems(LinesOf(fs, es))|
    ensures e in es && fs.inode(e.inode).Some?
    ensures var child, item := fs.inode(e.inode).value, EntryItems(LinesOf(fs, es))[i];
      && item.name == e.name && item.size == child.inode.size
      && item.kind == (if Kind(child.inode.mode) == MODE_DIRECTORY then PfsDirectory else PfsFile)
      && (item.kind == PfsFile ==> Kind(child.inode.mode) == MODE_REGULAR)
  {
    var lines, front := LinesOf(fs, es), es[..|es| - 1];
    assert lines[..|lines| - 1] == LinesOf(fs, front);
    if i < |EntryItems(LinesOf(fs, front))| {
      e := ItemsAreLines(fs, front, i);
    } else {
      e := es[|es| - 1];
    }
  }

  ghost predicate IsNodeOf(d: Disk, ps: seq<ApaScan.Partition>, place: Place) {
    && Normalize(place.path) == place.path
    && (place.path != "" ==>
          match NodeOf(d, ps, place.partition, place.path)
          case None => false
          case Some(node) =>
            && node.inode.size == place.size
            && place.kind == (if Kind(node.inode.mode) == MODE_DIRECTORY then PfsDirectory else PfsFile)
            && (place.kind == PfsFile ==> Kind(node.inode.mode) == MODE_REGULAR))
  }

  lemma ChildIsNode(d: Disk, ps: seq<ApaScan.Partition>, place: Place, i: nat)
    requires CleanSource(d, ps) && place.kind == PfsDirectory && Normalize(place.path) == place.path
    requires BrowseOf(d, ps, place.partition, place.path).Some?
    requires i < |EntryItems(BrowseOf(d, ps, place.partition, place.path).value)|
    ensures var item := EntryItems(BrowseOf(d, ps, place.partition, place.path).value)[i];
      IsNodeOf(d, ps, Place(item.kind, place.partition, JoinPfsPath(place.path, item.name), item.size))
  {
    hide EntryItems, LinesOf, Mounted, NodeOf, Normalize, CleanSource, CleanDirectory, CleanListing;
    var fs, node := Mounted(d, ps, place.partition).value, NodeOf(d, ps, place.partition, place.path).value;
    var es := fs.list(node, false).value;
    var e := ItemsAreLines(fs, es, i);
    CleanAt(d, ps, place.partition, place.path);
    ChildResolves(d, ps, place.partition, place.path, fs, node, e);
    NotJustSlash(place.path);
    assert ChildPath(place.path, e.name) == JoinPfsPath(place.path, e.name);
  }

  lemma NotJustSlash(path: string)
    requires Normalize(path) == path
    ensures path != "/"
  {
    hide Normalize;
    PartialTrim(path);
  }

  /**
   * Over an unambiguous source every accepted path below a partition denotes a node: its backing
   * path resolves to an inode of that kind and size.
   */
  lemma {:induction false} PlacesAreNodes(d: Disk, ps: seq<ApaScan.Partition>, parts: seq<string>)
    requires CleanSource(d, ps) && LookupIn(BackingOf(d, ps), parts).Some?
    ensures IsNodeOf(d, ps, LookupIn(BackingOf(d, ps), parts).value)
  {
    hide CleanSource, NodeOf, BrowseOf, Normalize, AliasesOf, EntryItems, PartitionItems;
    EmptyPath();
    if parts != [] {
      var b, front := BackingOf(d, ps), parts[..|parts| - 1];
      PlacesAreNodes(d, ps, front);
      var place := LookupIn(b, front).value;
      var i := FoundIsShown(Children(b, place).value, parts[|parts| - 1]);
      if place.kind == PfsDirectory {
        ChildIsNode(d, ps, place, i);
      }
    }
  }

  lemma EmptyPath()
    ensures Normalize("") == ""
  {
  }

  /** The listing a host sees of a place. */
  function ShownIn(aliases: seq<AliasEntry>): (r: seq<MountEntry>)
    ensures |r| == |aliases|
    ensures forall i :: 0 <= i < |r| ==> r[i] == MountEntry(aliases[i].visible, aliases[i].kind, aliases[i].size)
  {
    seq(|aliases|, i requires 0 <= i < |aliases| => MountEntry(aliases[i].visible, aliases[i].kind, aliases[i].size))
  }

  ghost function ListIn(b: Backing, place: Option<Place>): Option<seq<MountEntry>> {
    if place.None? || Children(b, place.value).None? then None else Some(ShownIn(Children(b, place.value).value))
  }

  /** What reading at a path delivers: the bytes of the file the path denotes. */
  ghost function FileIn(d: Disk, ps: seq<ApaScan.Partition>, parts: seq<string>, offset: nat,
                        n: nat): Option<seq<Byte>> {
    match LookupIn(BackingOf(d, ps), parts)
    case None => None
    case Some(place) => if place.kind != PfsFile then None else FileBytes(d, ps, place.partition, place.path, offset, n)
  }

  lemma FileShowsNothing(b: Backing, place: Place)
    requires place.kind == PfsFile
    ensures Children(b, place) == None
  {
  }

  lemma ChildrenCases(b: Backing, place: Place)
    ensures place.kind == Root ==>
      && Children(b, place).Some? && ShownIn(Children(b, place).value) == [MountEntry(NamespaceName(), Namespace, 0)]
    ensures place.kind == Namespace ==> Children(b, place) == Some(AliasesOf(PartitionItems(b.partitions)))
    ensures place.kind == PfsDirectory ==>
      Children(b, place) ==
      match b.browse(place.partition, place.path) case None => None case Some(es) => Some(AliasesOf(EntryItems(es)))
  {
    hide NamespaceName, AliasesOf;
  }

  // ---- listings some of whose children could not be read ----

  /** No two entries are shown under names that differ at most in case before any suffix is added. */
  ghost predicate PlainNames(items: seq<Item>) {
    forall i, j :: 0 <= i < j < |items| ==> !Collide(items[i], items[j])
  }

  predicate Collide(x: Item, y: Item) {
    Uppercase(Sanitize(x.name)) == Uppercase(Sanitize(y.name))
  }

  /** No directory needs a suffix. */
  ghost predicate PlainSource(b: Backing) {
    forall id, path :: PlainDirectory(b, id, path)
  }

  ghost predicate PlainDirectory(b: Backing, id: string, path: string) {
    b.browse(id, path).Some? ==> PlainNames(EntryItems(b.browse(id, path).value))
  }

  /** Then every alias depends on its own entry alone. */
  lemma {:induction false} PlainAliases(items: seq<Item>)
    requires PlainNames(items)
    ensures forall i :: 0 <= i < |items| ==> Aliases(NamesOf(items))[i] == Sanitize(items[i].name)
  {
    hide Uppercase, Sanitize, Alias;
    if items != [] {
      var front, last := items[..|items| - 1], items[|items| - 1];
      PlainAliases(front);
      assert NamesOf(items) == NamesOf(front) + [last.name];
      AliasesSnoc(NamesOf(front), last.name);
      var used := UpperSet(Aliases(NamesOf(front)));
      assert Uppercase(Sanitize(last.name)) !in used;
      AliasKeepsFreeName(last.name, used);
    }
  }

  lemma PlainSnoc(items: seq<Item>, x: Item)
    ensures PlainNames(items + [x]) <==> PlainNames(items) && forall y :: y in items ==> !Collide(y, x)
  {
    hide Collide;
    var all := items + [x];
    assert all[|items|] == x && forall i :: 0 <= i < |items| ==> all[i] == items[i];
    if PlainNames(all) {
      forall y | y in items ensures !Collide(y, x) {
        var i :| 0 <= i < |items| && items[i] == y;
        assert all[i] == y;
      }
    }
  }

  lemma UnreadShowsNothing(e: SessionEntry, unread: SessionEntry)
    requires !unread.readable
    ensures |ItemOf(e)| <= 1 && ItemOf(unread) == []
  {
  }

  /** Leaving out unread children leaves a selection of the items. */
  lemma {:induction false} DegradedItems(lines: seq<SessionEntry>, full: seq<SessionEntry>)
    requires Degraded(lines, full)
    ensures forall x :: x in EntryItems(lines) ==> x in EntryItems(full)
    ensures PlainNames(EntryItems(full)) ==> PlainNames(EntryItems(lines))
  {
    hide Uppercase, Sanitize, ItemOf, PlainNames;
    if full == [] {
      assert lines == full;
    } else {
      var n := |full| - 1;
      DegradedItems(lines[..n], full[..n]);
      var before, less, item := EntryItems(full[..n]), EntryItems(lines[..n]), ItemOf(full[n]);
      assert EntryItems(full) == before + item;
      UnreadShowsNothing(full[n], if lines[n] == full[n] then full[n].(readable := false) else lines[n]);
      assert EntryItems(lines) == less + if lines[n] == full[n] then item else [];
      assert less + [] == less && before + [] == before;
      if item != [] {
        assert item == [item[0]];
        PlainSnoc(before, item[0]);
        PlainSnoc(less, item[0]);
      }
    }
  }

  /** Without suffixes, what is found in a listing with unread children is found in the whole one. */
  lemma {:induction false} DegradedNeverMisleads(lines: seq<SessionEntry>, full: seq<SessionEntry>, word: string)
    requires Degraded(lines, full) && PlainNames(EntryItems(full))
    requires FindAlias(AliasesOf(EntryItems(lines)), word).Some?
    ensures FindAlias(AliasesOf(EntryItems(full)), word) == FindAlias(AliasesOf(EntryItems(lines)), word)
  {
    hide Uppercase, Sanitize, Aliases, EntryItems;
    var items, all := EntryItems(lines), EntryItems(full);
    DegradedItems(lines, full);
    PlainAliases(items);
    PlainAliases(all);
    var i := FoundIsShown(AliasesOf(items), word);
    assert items[i] in items;
    var j :| 0 <= j < |all| && all[j] == items[i];
    FindAliasAt(AliasesOf(all), j, word);
  }

  /** Whatever children are left unread, a name that is found opens what it opens in the whole listing. */
  ghost predicate NeverMisleads(full: seq<SessionEntry>) {
    forall lines, word :: Degraded(lines, full) && FindAlias(AliasesOf(EntryItems(lines)), word).Some? ==>
      FindAlias(AliasesOf(EntryItems(full)), word) == FindAlias(AliasesOf(EntryItems(lines)), word)
  }

  predicate DistinctNames(items: seq<Item>) {
    forall i, j :: 0 <= i < j < |items| ==> items[i].name != items[j].name
  }

  function Without(items: seq<Item>, i: nat): seq<Item>
    requires i < |items|
  {
    items[..i] + items[i + 1..]
  }

  /** Any one shown child can be the unread one. */
  lemma {:induction false} UnreadOne(full: seq<SessionEntry>, i: nat)
    requires i < |EntryItems(full)|
    ensures exists lines :: Degraded(lines, full) && EntryItems(lines) == Without(EntryItems(full), i)
  {
    hide ItemOf;
    var front, last := full[..|full| - 1], full[|full| - 1];
    var items := EntryItems(front);
    if i < |items| {
      UnreadOne(front, i);
      var less :| Degraded(less, front) && EntryItems(less) == Without(items, i);
      var lines := less + [last];
      assert lines[..|less|] == less;
      assert EntryItems(lines) == Without(items, i) + ItemOf(last) == Without(EntryItems(full), i);
    } else {
      var unread := last.(readable := false, size := 0);
      var lines := front + [unread];
      UnreadShowsNothing(last, unread);
      assert lines[..|front|] == front;
      assert EntryItems(lines) == items == Without(EntryItems(full), i);
    }
  }

  /** The first item that collides with one before it. */
  lemma {:induction false} FirstCollision(items: seq<Item>)
    requires !PlainNames(items)
    ensures exists i, j :: 0 <= i < j < |items| && PlainNames(items[..j]) && Collide(items[i], items[j])
  {
    hide Collide, PlainNames;
    assert items != [] by {
      NothingCollides();
    }
    var n, front, last := |items| - 1, items[..|items| - 1], items[|items| - 1];
    assert items == front + [last];
    PlainSnoc(front, last);
    if PlainNames(front) {
      var y :| y in front && Collide(y, last);
      var i :| 0 <= i < n && front[i] == y;
      assert items[..n] == front && Collide(items[i], items[n]);
    } else {
      FirstCollision(front);
      var i, j :| 0 <= i < j < n && PlainNames(front[..j]) && Collide(front[i], front[j]);
      assert front[..j] == items[..j] && Collide(items[i], items[j]);
    }
  }

  lemma NothingCollides()
    ensures PlainNames([])
  {
  }

  /**
   * Among items with different names that is so exactly where no two of their sanitised names differ
   * at most in case: otherwise the first of a colliding pair, left unread, lends its alias.
   */
  lemma NeverMisleadsIff(full: seq<SessionEntry>)
    requires DistinctNames(EntryItems(full))
    ensures NeverMisleads(full) <==> PlainNames(EntryItems(full))
  {
    hide Uppercase, Sanitize, Aliases, EntryItems, Degraded, AliasesOf, FindAlias;
    if PlainNames(EntryItems(full)) {
      forall lines, word | Degraded(lines, full) && FindAlias(AliasesOf(EntryItems(lines)), word).Some?
        ensures FindAlias(AliasesOf(EntryItems(full)), word) == FindAlias(AliasesOf(EntryItems(lines)), word)
      {
        DegradedNeverMisleads(lines, full, word);
      }
    } else {
      UnreadMisleads(full);
    }
  }

  lemma {:induction false} UnreadMisleads(full: seq<SessionEntry>)
    requires DistinctNames(EntryItems(full)) && !PlainNames(EntryItems(full))
    ensures !NeverMisleads(full)
  {
    hide Uppercase, Sanitize, Aliases, EntryItems, Degraded, FindAlias, PlainNames, AliasesOf;
    var items := EntryItems(full);
    FirstCollision(items);
    var i, j :| 0 <= i < j < |items| && PlainNames(items[..j]) && Collide(items[i], items[j]);
    var word := Sanitize(items[i].name);
    FirstKeepsName(items, i, j);
    UnreadOne(full, i);
    var lines :| Degraded(lines, full) && EntryItems(lines) == Without(items, i);
    FoundElsewhere(items, i, j, word);
    assert FindAlias(AliasesOf(EntryItems(lines)), word).Some?;
  }

  lemma {:induction false} FirstKeepsName(items: seq<Item>, i: nat, j: nat)
    requires i < j <= |items| && PlainNames(items[..j])
    ensures FindAlias(AliasesOf(items), Sanitize(items[i].name)) == Some(AliasesOf(items)[i])
  {
    hide Uppercase, Sanitize, Aliases, FindAlias, PlainNames, Legal;
    var names := NamesOf(items);
    PlainAliases(items[..j]);
    assert NamesOf(items[..j]) == names[..j];
    AliasesPrefix(names, j);
    assert Aliases(names)[i] == Aliases(names)[..j][i];
    AliasesLegalAndDistinct(names);
    FindAliasAt(AliasesOf(items), i, Sanitize(items[i].name));
  }

  /** Without item `i`, its name finds an item with another one. */
  lemma {:induction false} FoundElsewhere(items: seq<Item>, i: nat, j: nat, word: string)
    requires i < j < |items| && DistinctNames(items)
    requires Uppercase(Sanitize(items[j].name)) == Uppercase(word)
    ensures FindAlias(AliasesOf(Without(items, i)), word).Some?
    ensures FindAlias(AliasesOf(Without(items, i)), word).value.backing != items[i].name
  {
    hide Uppercase, Sanitize, Aliases, FindAlias, Legal;
    var less := Without(items, i);
    assert less[j - 1] == items[j];
    SanitizedIsTaken(NamesOf(less), j - 1);
    var k :| 0 <= k < j && Uppercase(Aliases(NamesOf(less))[k]) == Uppercase(Sanitize(items[j].name));
    AliasesLegalAndDistinct(NamesOf(less));
    FindAliasAt(AliasesOf(less), k, word);
    assert less[k] == items[if k < i then k else k + 1];
  }

  /** So it is not where two files are called "X" and "x": with the first unread, "x" opens the second. */
  lemma CaseTwinsMislead(a: BlockInfo, b: BlockInfo)
    ensures var full := [SessionEntry("X", a, MODE_REGULAR, 0, true), SessionEntry("x", b, MODE_REGULAR, 0, true)];
      DistinctNames(EntryItems(full)) && !NeverMisleads(full)
  {
    hide Uppercase, Sanitize, Legal, NeverMisleads;
    var x, y := SessionEntry("X", a, MODE_REGULAR, 0, true), SessionEntry("x", b, MODE_REGULAR, 0, true);
    var items := [Item("X", PfsFile, 0), Item("x", PfsFile, 0)];
    assert [x, y][..1] == [x] && [x][..0] == [];
    assert EntryItems([x]) == [items[0]];
    assert EntryItems([x, y]) == items;
    LetterIsKept('X');
    LetterIsKept('x');
    assert Collide(items[0], items[1]);
    UnreadMisleads([x, y]);
  }

  lemma LetterIsKept(c: char)
    requires 'A' <= c <= 'Z' || 'a' <= c <= 'z'
    ensures Sanitize([c]) == [c] && Uppercase([c]) == [UpperChar(c)]
  {
    hide Sanitize;
    StemWhole([c]);
    SanitizeFixesExactlyTheIllegal([c]);
  }

  /** A step found in a session's listing is the step of the namespace. */
  lemma {:induction false} StepRight(b: Backing, parts: seq<string>, index: nat, place: Place,
                                     lines: seq<SessionEntry>, flaky: bool)
    requires index < |parts| && LookupIn(b, parts[..index]) == Some(place) && place.kind == PfsDirectory
    requires ListingOk(lines, b.browse(place.partition, place.path), flaky)
    requires flaky ==> PlainDirectory(b, place.partition, place.path)
    requires FindAlias(AliasesOf(EntryItems(lines)), parts[index]).Some?
    ensures LookupIn(b, parts[..index + 1])
         == Some(Enter(place, FindAlias(AliasesOf(EntryItems(lines)), parts[index]).value))
  {
    hide LookupIn, AliasesOf, EntryItems, Degraded, Uppercase;
    OneStep(b, parts, index, place);
    if flaky {
      DegradedNeverMisleads(lines, b.browse(place.partition, place.path).value, parts[index]);
    }
  }

  /** Everything shown from a listing with unread children is shown from the whole one. */
  lemma {:induction false} DegradedShows(b: Backing, place: Place, lines: seq<SessionEntry>, flaky: bool)
    requires place.kind == PfsDirectory && ListingOk(lines, b.browse(place.partition, place.path), flaky)
    requires flaky ==> PlainDirectory(b, place.partition, place.path)
    ensures ListIn(b, Some(place)).Some?
    ensures forall x :: x in ShownIn(AliasesOf(EntryItems(lines))) ==> x in ListIn(b, Some(place)).value
  {
    hide Uppercase, Sanitize, Aliases, EntryItems, Degraded;
    var items, all := EntryItems(lines), EntryItems(b.browse(place.partition, place.path).value);
    if flaky {
      DegradedItems(lines, b.browse(place.partition, place.path).value);
      PlainAliases(items);
      PlainAliases(all);
      forall x | x in ShownIn(AliasesOf(items)) ensures x in ShownIn(AliasesOf(all)) {
        var i :| 0 <= i < |items| && ShownIn(AliasesOf(items))[i] == x;
        assert items[i] in items;
        var j :| 0 <= j < |all| && all[j] == items[i];
        assert ShownIn(AliasesOf(all))[j] == x;
      }
    }
  }

  // ---- the view ----

  lemma {:induction false} LookupNothing(b: Backing)
    ensures LookupIn(b, []) == Some(RootPlace())
  {
  }

  lemma {:induction false} FirstStep(b: Backing, parts: seq<string>)
    requires parts != []
    ensures EqualWindowsName(parts[0], NamespaceName()) ==> LookupIn(b, parts[..1]) == Some(Place(Namespace, "", "", 0))
    ensures !EqualWindowsName(parts[0], NamespaceName()) ==> LookupIn(b, parts) == None
  {
    hide NamespaceName, Uppercase, LookupIn;
    LookupNothing(b);
    assert parts[..1] == [] + [parts[0]];
    LookupSnoc(b, [], parts[0]);
    var only := AliasEntry(NamespaceName(), "", Namespace, 0);
    assert Children(b, RootPlace()) == Some([only]);
    FindOnly(only, parts[0]);
    if !EqualWindowsName(parts[0], NamespaceName()) {
      LookupPrefix(b, parts, 1);
    }
  }

  lemma {:induction false} FindOnly(a: AliasEntry, word: string)
    ensures FindAlias([a], word) == if EqualWindowsName(a.visible, word) then Some(a) else None
  {
    hide Uppercase;
  }

  lemma {:induction false} SecondStep(b: Backing, parts: seq<string>)
    requires |parts| >= 2 && LookupIn(b, parts[..1]) == Some(Place(Namespace, "", "", 0))
    ensures match FindAlias(AliasesOf(PartitionItems(b.partitions)), parts[1])
      case None => LookupIn(b, parts) == None
      case Some(a) => LookupIn(b, parts[..2]) == Some(Place(PfsDirectory, a.backing, "", 0))
  {
    hide NamespaceName, Uppercase, Aliases, LookupIn, PartitionItems;
    assert parts[..2] == parts[..1] + [parts[1]];
    LookupSnoc(b, parts[..1], parts[1]);
    var aliases := AliasesOf(PartitionItems(b.partitions));
    if FindAlias(aliases, parts[1]).None? {
      LookupPrefix(b, parts, 2);
    } else {
      var i := FoundIsShown(aliases, parts[1]);
      PartitionItemsPlain(b.partitions, i);
    }
  }

  lemma {:induction false} PartitionItemsPlain(ps: seq<ApaScan.Partition>, i: nat)
    requires i < |PartitionItems(ps)|
    ensures var item := PartitionItems(ps)[i];
      item.kind == PfsDirectory && item.size == 0 && exists p :: p in ps && p.id == item.name
  {
    var front, p := ps[..|ps| - 1], ps[|ps| - 1];
    assert p in ps;
    if i < |PartitionItems(front)| {
      PartitionItemsPlain(front, i);
    }
  }

  /** Lookup only ever asks the session about ids of scanned partitions. */
  lemma {:induction false} PartitionIdClean(d: Disk, ps: seq<ApaScan.Partition>, parts: seq<string>)
    requires CleanSource(d, ps) && LookupIn(BackingOf(d, ps), parts).Some?
    ensures CleanId(LookupIn(BackingOf(d, ps), parts).value.partition)
  {
    hide NamespaceName, BrowseOf, EntryItems, PartitionItems, Aliases, Uppercase, CleanDirectory;
    if parts != [] {
      var b, front := BackingOf(d, ps), parts[..|parts| - 1];
      PartitionIdClean(d, ps, front);
      var place := LookupIn(b, front).value;
      var i := FoundIsShown(Children(b, place).value, parts[|parts| - 1]);
      if place.kind == Namespace {
        PartitionItemsPlain(ps, i);
      }
    }
  }

  lemma {:induction false} OneStep(b: Backing, parts: seq<string>, index: nat, place: Place)
    requires index < |parts| && LookupIn(b, parts[..index]) == Some(place) && place.kind == PfsDirectory
    ensures match b.browse(place.partition, place.path)
      case None => LookupIn(b, parts) == None
      case Some(entries) =>
        match FindAlias(AliasesOf(EntryItems(entries)), parts[index])
        case None => LookupIn(b, parts) == None
        case Some(a) => LookupIn(b, parts[..index + 1]) == Some(Enter(place, a))
  {
    hide NamespaceName, Uppercase, AliasesOf, LookupIn, EntryItems;
    assert parts[..index + 1] == parts[..index] + [parts[index]];
    LookupSnoc(b, parts[..index], parts[index]);
    if LookupIn(b, parts[..index + 1]).None? {
      LookupPrefix(b, parts, index + 1);
    }
  }

  lemma {:induction false} FilesHoldNothing(b: Backing, parts: seq<string>, k: nat, place: Place)
    requires k < |parts| && LookupIn(b, parts[..k]) == Some(place) && place.kind == PfsFile
    ensures LookupIn(b, parts) == None
  {
    hide NamespaceName, LookupIn;
    assert parts[..k + 1] == parts[..k] + [parts[k]];
    LookupSnoc(b, parts[..k], parts[k]);
    LookupPrefix(b, parts, k + 1);
  }

  /** Every shown entry is a directory or a file. */
  lemma {:induction false} EntryKinds(entries: seq<SessionEntry>, word: string)
    requires FindAlias(AliasesOf(EntryItems(entries)), word).Some?
    ensures FindAlias(AliasesOf(EntryItems(entries)), word).value.kind in {PfsDirectory, PfsFile}
  {
    hide NamespaceName, Aliases, Uppercase;
    var i := FoundIsShown(AliasesOf(EntryItems(entries)), word);
    EntryItemKind(entries, i);
  }

  lemma {:induction false} EntryItemKind(entries: seq<SessionEntry>, i: nat)
    requires i < |EntryItems(entries)|
    ensures EntryItems(entries)[i].kind in {PfsDirectory, PfsFile}
  {
    if i < |EntryItems(entries[..|entries| - 1])| {
      EntryItemKind(entries[..|entries| - 1], i);
    }
  }

  method FirstForbidden(parts: seq<string>) returns (k: nat)
    ensures k <= |parts| && (k < |parts| ==> Forbidden(parts[k]))
    ensures forall i :: 0 <= i < k ==> !Forbidden(parts[i])
  {
    k := 0;
    while k < |parts| && !Forbidden(parts[k])
      invariant k <= |parts| && forall i :: 0 <= i < k ==> !Forbidden(parts[i])
    {
      k := k + 1;
    }
  }

  class MountView {
    const session: DriveSession

    constructor (session: DriveSession)
      ensures this.session == session
    {
      this.session := session;
    }

    /** The session answers every question the way an uncached one would. */
    ghost predicate Exact()
      reads session
    {
      !session.device.flaky && session.Trusted()
    }

    /** Answers that are given are right: the device is steady, or no directory needs a suffix. */
    ghost predicate Sure()
      reads session
    {
      session.Trusted() && (session.device.flaky ==> PlainSource(Base()))
    }

    ghost function Base(): Backing
      reads session
    {
      BackingOf(session.device.disk, session.scan.partitions)
    }

    /** What was asked of the device since `before` lies on it, after an accepted scan. */
    ghost predicate Isolated(before: seq<Access>)
      reads session, session.device
    {
      ApaScan.Accepted(session.device.disk, session.scan.partitions, MAX_HEADERS) ==>
        ApaScan.OnDevice(session.device.disk, before, session.device.log)
    }

    lemma StillIsolated(before: seq<Access>, middle: seq<Access>, id: string)
      requires ApaScan.Accepted(session.device.disk, session.scan.partitions, MAX_HEADERS) ==>
        ApaScan.OnDevice(session.device.disk, before, middle)
      requires Within(session.device.disk, session.scan.partitions, id, middle, session.device.log)
      ensures Isolated(before)
    {
      hide ApaScan.Accepted, ApaScan.OnDevice, Within;
      var d, ps := session.device.disk, session.scan.partitions;
      if ApaScan.Accepted(d, ps, MAX_HEADERS) {
        SessionStaysOnDevice(d, ps, MAX_HEADERS, id, middle, session.device.log);
        ApaScan.OnDeviceTransitive(d, before, middle, session.device.log);
      }
    }

    method Lookup(path: string) returns (r: Option<Place>)
      requires session.Valid()
      modifies session, session.device`log
      ensures session.Valid() && session.scan == old(session.scan) && Isolated(old(session.device.log))
      ensures old(session.Trusted()) ==> session.Trusted() && (r.Some? ==> CleanId(r.value.partition))
      ensures old(Exact()) ==> r == LookupIn(Base(), Components(path))
      ensures old(Sure()) && r.Some? ==> r == LookupIn(Base(), Components(path))
    {
      hide NamespaceName, LookupIn, Components, Children, BrowseOf, CleanSource, FindAlias, AliasesOf, PartitionItems,
        Uppercase, Forbidden, ProbesOk, NodesOk, StatsOk, BrowsesOk, ApaScan.Accepted, ApaScan.OnDevice, PlainSource,
        CleanId;
      ghost var b := Base();
      var parts := SplitPath(path);
      ApaScan.OnDeviceReflexive(session.device.disk, session.device.log);
      LookupNothing(b);
      NoPartitionIsClean();
      if parts == [] {
        return Some(RootPlace());
      }
      var dots := FirstForbidden(parts);
      if dots < |parts| {
        ForbiddenNeverFound(b, parts, dots);
        return None;
      }
      FirstStep(b, parts);
      if !EqualWindowsName(parts[0], NamespaceName()) {
        return None;
      }
      if |parts| == 1 {
        assert parts[..1] == parts;
        return Some(Place(Namespace, "", "", 0));
      }
      var partitions := MakePartitionAliases(session.scan.partitions);
      var partition := FindAlias(partitions, parts[1]);
      SecondStep(b, parts);
      if partition.None? {
        return None;
      }
      if session.Trusted() {
        PartitionIdClean(session.device.disk, session.scan.partitions, parts[..2]);
      }
      if |parts| == 2 {
        assert parts[..2] == parts;
        return Some(Place(PfsDirectory, partition.value.backing, "", 0));
      }
      r := LookupBelow(parts, partition.value.backing, b);
    }

    /** The components after the partition, one directory at a time. */
    method LookupBelow(parts: seq<string>, partition: string, ghost b: Backing) returns (r: Option<Place>)
      requires session.Valid() && b == Base() && (session.Trusted() ==> CleanId(partition))
      requires |parts| > 2 && LookupIn(b, parts[..2]) == Some(Place(PfsDirectory, partition, "", 0))
      modifies session, session.device`log
      ensures session.Valid() && session.scan == old(session.scan) && Isolated(old(session.device.log))
      ensures old(session.Trusted()) ==> session.Trusted()
      ensures r.Some? ==> r.value.partition == partition
      ensures old(Exact()) ==> r == LookupIn(b, parts)
      ensures old(Sure()) && r.Some? ==> r == LookupIn(b, parts)
    {
      hide NamespaceName, LookupIn, Children, BrowseOf, CleanSource, FindAlias, AliasesOf, EntryItems, CleanId,
        ListingOk, Uppercase, ProbesOk, NodesOk, StatsOk, BrowsesOk, ApaScan.Accepted, ApaScan.OnDevice,
        PlainDirectory, Within;
      ghost var exact, sure := Exact(), Sure();
      ApaScan.OnDeviceReflexive(session.device.disk, session.device.log);
      var backingPath := "";
      var kind, size := PfsDirectory, 0;
      ghost var place := Place(PfsDirectory, partition, "", 0);
      for index := 2 to |parts|
        invariant session.Valid() && session.scan == old(session.scan) && Isolated(old(session.device.log))
        invariant old(session.Trusted()) ==> session.Trusted()
        invariant sure ==> LookupIn(b, parts[..index]) == Some(place)
        invariant place.partition == partition && place.path == backingPath
        invariant index < |parts| ==> place.kind == PfsDirectory
        invariant index == |parts| ==> place.kind == kind && place.size == size
      {
        if exact {
          OneStep(b, parts, index, place);
        }
        ghost var log := session.device.log;
        var browse := session.Browse(partition, backingPath);
        StillIsolated(old(session.device.log), log, partition);
        if browse.None? {
          return None;
        }
        var aliases := MakeEntryAliases(browse.value);
        var entry := FindAlias(aliases, parts[index]);
        if entry.None? {
          return None;
        }
        if sure {
          StepRight(b, parts, index, place, browse.value, session.device.flaky);
        }
        place := Enter(place, entry.value);
        if exact && place.kind == PfsFile && index + 1 < |parts| {
          FilesHoldNothing(b, parts, index + 1, place);
        }
        EntryKinds(browse.value, parts[index]);
        backingPath := JoinPfsPath(backingPath, entry.value.backing);
        var last := index + 1 == |parts|;
        if !last && entry.value.kind != PfsDirectory {
          return None;
        }
        if last {
          kind, size := entry.value.kind, entry.value.size;
        }
      }
      assert parts[..|parts|] == parts;
      r := Some(Place(kind, partition, backingPath, size));
    }

    /** The names shown in a directory, in the order of what they were made from. */
    method ListDirectory(path: string) returns (r: Option<seq<MountEntry>>)
      requires session.Valid()
      modifies session, session.device`log
      ensures session.Valid() && session.scan == old(session.scan) && Isolated(old(session.device.log))
      ensures old(session.Trusted()) ==> session.Trusted()
      ensures old(Exact()) ==> r == ListIn(Base(), LookupIn(Base(), Components(path)))
      ensures old(Sure()) && r.Some? ==>
        && ListIn(Base(), LookupIn(Base(), Components(path))).Some?
        && forall x :: x in r.value ==> x in ListIn(Base(), LookupIn(Base(), Components(path))).value
    {
      hide NamespaceName, LookupIn, Components, Children, BrowseOf, CleanSource, AliasesOf, EntryItems, PartitionItems,
        CleanId, Uppercase, ProbesOk, NodesOk, StatsOk, BrowsesOk, ShownIn, ApaScan.Accepted, ApaScan.OnDevice,
        PlainDirectory, Within, ListingOk;
      ghost var exact, sure := Exact(), Sure();
      var node := Lookup(path);
      if node.None? || node.value.kind == PfsFile {
        if node.Some? {
          FileShowsNothing(Base(), node.value);
        }
        return None;
      }
      var place := node.value;
      ChildrenCases(Base(), place);
      if place.kind == Root {
        return Some([MountEntry(NamespaceName(), Namespace, 0)]);
      }
      if place.kind == Namespace {
        var aliases := MakePartitionAliases(session.scan.partitions);
        return Some(ShownIn(aliases));
      }
      ghost var b, log := Base(), session.device.log;
      var browse := session.Browse(place.partition, place.path);
      assert Base() == b;
      StillIsolated(old(session.device.log), log, place.partition);
      if browse.None? {
        return None;
      }
      var aliases := MakeEntryAliases(browse.value);
      r := Some(ShownIn(aliases));
      if sure {
        DegradedShows(b, place, browse.value, session.device.flaky);
      }
    }

    /** Reads the file a path denotes, clamped to its end. */
    method ReadFile(path: string, offset: nat, out: array<Byte>) returns (ok: bool, bytesRead: nat)
      requires session.Valid()
      modifies session, session.device`log, out
      ensures session.Valid() && session.scan == old(session.scan) && bytesRead <= out.Length
      ensures Isolated(old(session.device.log))
      ensures old(session.Trusted()) ==> session.Trusted()
      ensures old(Exact()) ==>
        ok == FileIn(session.device.disk, session.scan.partitions, Components(path), offset, out.Length).Some?
      ensures old(Sure()) && ok ==>
        FileIn(session.device.disk, session.scan.partitions, Components(path), offset, out.Length)
        == Some(out[..bytesRead])
    {
      hide NamespaceName, LookupIn, Components, Children, BrowseOf, CleanSource, FileBytes, CleanId, PlainSource,
        Uppercase, ProbesOk, NodesOk, StatsOk, BrowsesOk, ApaScan.Accepted, ApaScan.OnDevice, Within;
      ok, bytesRead := false, 0;
      var node := Lookup(path);
      if node.None? || node.value.kind != PfsFile {
        return;
      }
      ghost var log := session.device.log;
      ok, bytesRead := session.ReadFile(node.value.partition, node.value.path, offset, out);
      StillIsolated(old(session.device.log), log, node.value.partition);
    }
  }

  /** Scans a device and mounts it: over an unambiguous source whatever the view then answers is right. */
  method MountSource(device: BlockDevice) returns (ok: bool, view: MountView)
    modifies device`log
    ensures fresh(view) && fresh(view.session) && view.session.device == device && view.session.Valid()
    ensures ok ==> ApaScan.Accepted(device.disk, view.session.scan.partitions, MAX_HEADERS)
    ensures ok && CleanSource(device.disk, view.session.scan.partitions) && !device.flaky ==>
      view.Exact() && view.Sure()
    ensures ok && CleanSource(device.disk, view.session.scan.partitions) && PlainSource(view.Base()) ==> view.Sure()
    ensures ApaScan.OnDevice(device.disk, old(device.log), device.log)
  {
    hide CleanSource, PlainSource, ApaScan.Accepted, ApaScan.OnDevice, ProbesOk, NodesOk, StatsOk, BrowsesOk;
    var session := new DriveSession(device);
    ok := session.Scan();
    view := new MountView(session);
  }

  lemma NoPartitionIsClean()
    ensures CleanId("")
  {
  }
}
