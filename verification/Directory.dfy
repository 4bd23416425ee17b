/** One directory layer: creating, opening, removing and moving directories by the rows of its graph. */
module Directory {
  import opened Bytes
  import opened Wrappers
  import opened DirectoryPrefixes
  import opened DirectoryTree

  type Layers = map<bytes, bytes>
  type Content = map<bytes, bytes>

  const PARTITION: bytes := [0x70, 0x61, 0x72, 0x74, 0x69, 0x74, 0x69, 0x6f, 0x6e]

  const LAYER: bytes := [0x6c, 0x61, 0x79, 0x65, 0x72]
  const VERSION: bytes := [0x76, 0x65, 0x72, 0x73, 0x69, 0x6f, 0x6e]

  datatype Version = Unset | Malformed | Version(major: nat, minor: nat)

  /** Versions this code can read, and those it can write. */
  predicate Accepts(v: Version, write: bool) {
    match v
    case Unset => true
    case Malformed => false
    case Version(major, minor) => major <= 1 && (write ==> minor == 0)
  }

  datatype Error =
    | PrefixNotAllowed | CannotPrefixInPartition | NoPathProvided | DirectoryAlreadyExists | IncompatibleLayer
    | DirectoryDoesNotExist | VersionError | NoSuccessor | PrefixNotEmpty | DirectoryPrefixInUse | InvalidMetadata
    | CannotModifyRoot | CannotMoveRoot | CannotMoveIntoSubdirectory | PathDoesNotExist | CannotMoveBetweenPartitions
    | ParentDirectoryDoesNotExist | NoAllocation

  /** What an operation on a path comes to; work inside a partition is handed to the partition's own layer. */
  datatype Outcome =
    | Opened(prefix: bytes, layer: bytes)
    | Done(changed: bool)
    | Delegated(partition: bytes, rest: Path)
    | DelegatedMove(partition: bytes, from: Path, to: Path)
    | Failed(error: Error)

  datatype Found = Missing | Node(prefix: bytes, depth: nat)

  function LayerOf(layers: Layers, p: bytes): bytes {
    if p in layers then layers[p] else []
  }

  /** The directories with metadata, the metadata root among them. */
  function Live(layers: Layers, root: bytes): set<bytes> {
    layers.Keys + {root}
  }

  predicate HasSuccessor(p: bytes) {
    exists i :: 0 <= i < |p| && p[i] != 0xff
  }

  /** A tree of directories with unrelated prefixes; what is inside a partition is not kept here. */
  ghost predicate Wellformed(edges: Edges, layers: Layers, root: bytes) {
    Tree(edges, Live(layers, root), root) && Shaped(edges, layers, root)
  }

  ghost predicate Shaped(edges: Edges, layers: Layers, root: bytes) {
    && root !in layers && Antichain(Live(layers, root)) && Leaves(edges, layers)
    && forall p :: p in layers ==> HasSuccessor(p)
  }

  lemma ShapedLess(edges: Edges, layers: Layers, edges': Edges, layers': Layers, root: bytes)
    requires Shaped(edges, layers, root)
    requires edges'.Keys <= edges.Keys && forall p :: p in layers' ==> p in layers && layers'[p] == layers[p]
    ensures Shaped(edges', layers', root)
  {
    assert Live(layers', root) <= Live(layers, root);
    hide HasSuccessor;
  }

  lemma ShapedMore(edges: Edges, layers: Layers, root: bytes, e: (bytes, string), x: bytes, layer: bytes)
    requires Shaped(edges, layers, root) && Free(Live(layers, root), x) && HasSuccessor(x)
    requires LayerOf(layers, e.0) != PARTITION && e.0 != x
    requires forall name :: (x, name) !in edges
    ensures Shaped(edges[e := x], layers[x := layer], root)
    ensures Live(layers[x := layer], root) == Live(layers, root) + {x}
  {
    assert Related(x, x);
    assert x !in Live(layers, root);
    JoinAntichain(Live(layers, root), x);
    assert Live(layers[x := layer], root) == Live(layers, root) + {x};
    hide HasSuccessor, Free, Antichain, Live;
  }

  ghost predicate Leaves(edges: Edges, layers: Layers) {
    forall e :: e in edges ==> LayerOf(layers, e.0) != PARTITION
  }

  /** Keys that extend no removed prefix. */
  function Wiped(content: Content, gone: set<bytes>): Content {
    map k | k in content && forall p :: p in gone ==> !(p <= k) :: content[k]
  }

  // ---- Creating ----

  /** Nothing lost; nothing new but the path and ancestors of it. */
  ghost predicate Grew(e: Edges, l: Layers, e': Edges, l': Layers, root: bytes, path: Path) {
    && (forall p :: p in l ==> p in l' && l'[p] == l[p])
    && (forall q :: Resolve(e, root, q).Some? ==> Resolve(e', root, q) == Resolve(e, root, q))
    && (forall q :: Resolve(e, root, q).None? && Resolve(e', root, q).Some? ==> q <= path)
  }

  lemma GrewNot(e: Edges, l: Layers, root: bytes, path: Path)
    ensures Grew(e, l, e, l, root, path)
  {
  }

  /** No partition stands on the way to a path that does not exist. */
  ghost predicate Absent(edges: Edges, layers: Layers, root: bytes, path: Path) {
    && Resolve(edges, root, path).None?
    && forall q :: q <= path && Resolve(edges, root, q).Some? ==> LayerOf(layers, Resolve(edges, root, q).value) != PARTITION
  }

  ghost predicate CanJoin(edges: Edges, layers: Layers, root: bytes, path: Path, parent: bytes, x: bytes) {
    && Wellformed(edges, layers, root) && path != [] && Resolve(edges, root, path).None?
    && Resolve(edges, root, Front(path)) == Some(parent) && LayerOf(layers, parent) != PARTITION
    && Free(Live(layers, root), x) && HasSuccessor(x)
  }

  lemma Joins(edges: Edges, layers: Layers, root: bytes, path: Path, parent: bytes, x: bytes, layer: bytes)
    requires CanJoin(edges, layers, root, path, parent, x)
    ensures var edges', layers' := edges[(parent, Last(path)) := x], layers[x := layer];
            && Wellformed(edges', layers', root) && Grew(edges, layers, edges', layers', root, path)
            && Resolve(edges', root, path) == Some(x)
  {
    hide Resolve, Tree, Shaped, HasSuccessor, Antichain;
    var live := Live(layers, root);
    ResolveLast(edges, root, path);
    assert Related(x, x);
    ResolvesToLive(edges, live, root, root, Front(path));
    NoEdgeFrom(edges, live, root, x);
    AddLeaf(edges, live, root, path, parent, x);
    ShapedMore(edges, layers, root, (parent, Last(path)), x, layer);
    JoinGrew(edges, layers, root, path, parent, x, layer);
  }

  lemma JoinGrew(edges: Edges, layers: Layers, root: bytes, path: Path, parent: bytes, x: bytes, layer: bytes)
    requires x !in layers && path != [] && Resolve(edges, root, path).None?
    requires forall q :: Resolve(edges[(parent, Last(path)) := x], root, q) == Added(edges, root, path, x, q)
    ensures Grew(edges, layers, edges[(parent, Last(path)) := x], layers[x := layer], root, path)
    ensures Resolve(edges[(parent, Last(path)) := x], root, path) == Some(x)
  {
    hide Resolve;
    var edges' := edges[(parent, Last(path)) := x];
    assert Added(edges, root, path, x, path) == Some(x);
    forall q ensures Resolve(edges', root, q) == Added(edges, root, path, x, q) { }
  }

  lemma GrewTwice(e: Edges, l: Layers, e': Edges, l': Layers, e'': Edges, l'': Layers, root: bytes, path: Path)
    requires path != [] && Grew(e, l, e', l', root, Front(path)) && Grew(e', l', e'', l'', root, path)
    ensures Grew(e, l, e'', l'', root, path)
  {
    assert path == Front(path) + [Last(path)];
    hide Resolve;
  }

  /** The path is still free after its ancestors were created. */
  lemma StillAbsent(e: Edges, l: Layers, e': Edges, l': Layers, root: bytes, path: Path)
    requires path != [] && Resolve(e, root, path).None? && Grew(e, l, e', l', root, Front(path))
    ensures Resolve(e', root, path).None?
  {
    assert |Front(path)| < |path|;
  }

  // ---- What it takes to create ----

  /** How many directories of a path are not there. */
  ghost function Needed(edges: Edges, root: bytes, path: Path): nat
    decreases |path|
  {
    if path == [] || Resolve(edges, root, path).Some? then 0 else Needed(edges, root, Front(path)) + 1
  }

  ghost predicate Contentless(content: Content, x: bytes) {
    forall k :: k in content ==> !(x <= k)
  }

  ghost predicate Usable(live: set<bytes>, x: bytes) {
    HasSuccessor(x) && Free(live, x)
  }

  /** Prefixes that can be given out one after the other: empty so far, unrelated to all in use and to each other. */
  ghost predicate Supplied(live: set<bytes>, content: Content, xs: seq<bytes>) {
    && (forall i :: 0 <= i < |xs| ==> Usable(live, xs[i]) && Contentless(content, xs[i]))
    && forall i, j :: 0 <= i < j < |xs| ==> !Related(xs[i], xs[j])
  }

  function Elements(xs: seq<bytes>): set<bytes> {
    set x | x in xs
  }

  /** The offered prefixes serve the missing ancestors in turn, and the next one, or the caller's own, the path. */
  ghost predicate Creatable(edges: Edges, layers: Layers, content: Content, root: bytes, path: Path,
                            explicit: Option<bytes>, offered: seq<bytes>)
    requires path != []
  {
    var n := Needed(edges, root, Front(path));
    && n <= |offered| && Supplied(Live(layers, root), content, offered[..n])
    && (explicit.None? ==> n < |offered| && Contentless(content, offered[n]))
    && Usable(Live(layers, root) + Elements(offered[..n]), if explicit.Some? then explicit.value else offered[n])
  }

  /** The prefixes a creation uses up, in order. */
  ghost function Uses(explicit: Option<bytes>, offered: seq<bytes>, n: nat): seq<bytes>
    requires n <= |offered| && (explicit.None? ==> n < |offered|)
  {
    if explicit.Some? then offered[..n] + [explicit.value] else offered[..n + 1]
  }

  lemma SuppliedMore(live: set<bytes>, content: Content, xs: seq<bytes>, x: bytes)
    ensures Supplied(live, content, xs + [x]) <==>
              Supplied(live, content, xs) && Usable(live + Elements(xs), x) && Contentless(content, x)
    ensures Elements(xs + [x]) == Elements(xs) + {x}
  {
    hide Contentless, HasSuccessor;
    var more := xs + [x];
    assert forall i :: 0 <= i < |xs| ==> more[i] == xs[i];
    assert more[|xs|] == x;
    assert forall p :: p in Elements(xs) <==> p in xs;
  }

  /** Creating a path of which only the allocator's prefixes are used is supplying all that it needs. */
  lemma CreatableBySupply(edges: Edges, layers: Layers, content: Content, root: bytes, path: Path, offered: seq<bytes>)
    requires path != [] && Resolve(edges, root, path).None?
    ensures var n := Needed(edges, root, path);
            Creatable(edges, layers, content, root, path, None, offered) <==>
              n <= |offered| && Supplied(Live(layers, root), content, offered[..n])
  {
    var n := Needed(edges, root, Front(path));
    NeededMore(edges, root, path);
    hide Needed, Supplied, Usable, Contentless, Elements, Resolve, Live;
    SupplyOne(Live(layers, root), content, offered, n);
    assert n + 1 <= |offered| ==> n <= |offered|;
  }

  lemma NeededMore(edges: Edges, root: bytes, path: Path)
    requires path != [] && Resolve(edges, root, path).None?
    ensures Needed(edges, root, path) == Needed(edges, root, Front(path)) + 1
  {
  }

  lemma SupplyOne(live: set<bytes>, content: Content, offered: seq<bytes>, n: nat)
    ensures n + 1 <= |offered| ==>
              (Supplied(live, content, offered[..n + 1]) <==>
                 Supplied(live, content, offered[..n]) && Contentless(content, offered[n]) && Usable(live + Elements(offered[..n]), offered[n]))
  {
    if n + 1 <= |offered| {
      assert offered[..n + 1] == offered[..n] + [offered[n]];
      SuppliedMore(live, content, offered[..n], offered[n]);
    }
    hide Supplied, Usable, Contentless, Elements;
  }

  lemma AbsentAbove(edges: Edges, layers: Layers, root: bytes, path: Path)
    requires Absent(edges, layers, root, path) && path != []
    ensures if Resolve(edges, root, Front(path)).Some? then LayerOf(layers, Resolve(edges, root, Front(path)).value) != PARTITION
            else Absent(edges, layers, root, Front(path))
    ensures Needed(edges, root, path) == Needed(edges, root, Front(path)) + 1 && |Front(path)| < |path|
    ensures Resolve(edges, root, Front(path)).Some? ==> Needed(edges, root, Front(path)) == 0
  {
    assert Front(path) <= path;
  }

  // ---- Removing ----

  /** How much of a removal is done: these nodes' rows, edges and contents are gone. */
  ghost predicate Gone(e: Edges, l: Layers, c: Content, edges: Edges, layers: Layers, content: Content,
                       gone: set<bytes>) {
    edges == Cut(e, gone) && layers == l - gone && content == Wiped(c, gone)
  }

  lemma GoneNone(e: Edges, l: Layers, c: Content)
    ensures Gone(e, l, c, e, l, c, {})
  {
  }

  lemma GoneMore(e: Edges, l: Layers, c: Content, edges: Edges, layers: Layers, content: Content, gone: set<bytes>,
                 p: bytes)
    requires Gone(e, l, c, edges, layers, content, gone)
    ensures Gone(e, l, c, Cut(edges, {p}), layers - {p}, Wiped(content, {p}), gone + {p})
  {
    assert Cut(Cut(e, gone), {p}) == Cut(e, gone + {p});
    assert l - gone - {p} == l - (gone + {p});
    assert Wiped(Wiped(c, gone), {p}) == Wiped(c, gone + {p});
  }

  function Children(edges: Edges, p: bytes): set<(bytes, string)> {
    set e | e in edges && e.0 == p
  }

  lemma SameChildren(e: Edges, gone: set<bytes>, p: bytes)
    requires p !in gone
    ensures Children(Cut(e, gone), p) == Children(e, p)
    ensures forall x :: x in Children(e, p) ==> x in Cut(e, gone) && Cut(e, gone)[x] == e[x]
  {
  }

  /** The nodes below a node that hang under some of its edges. */
  ghost function BelowSome(edges: Edges, live: set<bytes>, some: set<(bytes, string)>): set<bytes> {
    set q | q in live && exists x :: x in some && x in edges && q in Below(edges, live, edges[x])
  }

  lemma BelowSomeMore(edges: Edges, live: set<bytes>, root: bytes, p: bytes, some: set<(bytes, string)>, x: (bytes,
                      string))
    requires Tree(edges, live, root) && some <= Children(edges, p) && x in Children(edges, p) && x !in some
    ensures BelowSome(edges, live, some + {x}) == BelowSome(edges, live, some) + Below(edges, live, edges[x])
    ensures BelowSome(edges, live, some) !! Below(edges, live, edges[x])
  {
    forall y | y in some ensures Below(edges, live, edges[y]) !! Below(edges, live, edges[x]) {
      SiblingsApart(edges, live, root, y, x);
    }
  }

  lemma BelowAll(edges: Edges, live: set<bytes>, root: bytes, p: bytes)
    requires Tree(edges, live, root) && p in live
    ensures BelowSome(edges, live, Children(edges, p)) + {p} == Below(edges, live, p)
    ensures p !in BelowSome(edges, live, Children(edges, p))
    ensures BelowSome(edges, live, {}) == {}
  {
    forall q ensures q in Below(edges, live, p) <==> q == p || q in BelowSome(edges, live, Children(edges, p)) {
      BelowOne(edges, live, root, p, q);
    }
    forall e | e in Children(edges, p) ensures p !in Below(edges, live, edges[e]) {
      ChildBelow(edges, live, root, e);
    }
  }

  /** What is left after a removal: a well-formed layer without the subtree. */
  lemma RemovalKeeps(edges: Edges, layers: Layers, root: bytes, path: Path, parent: bytes, x: bytes)
    requires Wellformed(edges, layers, root) && path != []
    requires Resolve(edges, root, path) == Some(x) && Resolve(edges, root, Front(path)) == Some(parent)
    ensures var live := Live(layers, root);
            var gone := Below(edges, live, x);
            var edges', layers' := Pruned(edges, live, path, parent, x), layers - gone;
            && Wellformed(edges', layers', root) && Live(layers', root) == live - gone
            && forall q :: Resolve(edges', root, q) == Removed(edges, root, path, q)
  {
    var live := Live(layers, root);
    var gone := Below(edges, live, x);
    RootStays(edges, layers, root, path, x);
    hide Resolve, Shaped, Tree, Below, Removed, Live;
    ResolveLast(edges, root, path);
    RemoveSubtree(edges, live, root, path, parent, x);
    ShapedLess(edges, layers, Pruned(edges, live, path, parent, x), layers - gone, root);
  }

  lemma RootStays(edges: Edges, layers: Layers, root: bytes, path: Path, x: bytes)
    requires Wellformed(edges, layers, root) && path != [] && Resolve(edges, root, path) == Some(x)
    ensures var gone := Below(edges, Live(layers, root), x);
            Live(layers - gone, root) == Live(layers, root) - gone
  {
    hide Below, Tree, Shaped;
    assert Resolve(edges, root, []) == Some(root);
    hide Resolve, Live;
    BelowIsExtension(edges, Live(layers, root), root, path, []);
    LiveLess(layers, root, Below(edges, Live(layers, root), x));
  }

  lemma LiveLess(layers: Layers, root: bytes, gone: set<bytes>)
    requires root !in gone
    ensures Live(layers - gone, root) == Live(layers, root) - gone
  {
  }

  /** A directory that remains keeps all its contents. */
  lemma OthersKeepContents(live: set<bytes>, content: Content, gone: set<bytes>, p: bytes, key: bytes)
    requires Antichain(live) && gone <= live && p in live - gone && p <= key && key in content
    ensures key in Wiped(content, gone) && Wiped(content, gone)[key] == content[key]
  {
    forall g | g in gone ensures !(g <= key) {
      if g <= key { ContentsApart(live, g, p, key); }
    }
  }

  /** Clearing a directory's contents touches no metadata: metadata keys extend the metadata root. */
  lemma ContentsAreNotMetadata(layers: Layers, root: bytes, p: bytes, key: bytes)
    requires Antichain(Live(layers, root)) && p in layers && p != root && p <= key
    ensures !(root <= key)
  {
    if root <= key { ContentsApart(Live(layers, root), p, root, key); }
  }

  /** No partition is on the way to a node that this layer resolves. */
  lemma WayIsOpen(edges: Edges, layers: Layers, root: bytes, path: Path, d: nat)
    requires Leaves(edges, layers) && Resolve(edges, root, path).Some? && d < |path|
    ensures Resolve(edges, root, path[..d]).Some?
    ensures LayerOf(layers, Resolve(edges, root, path[..d]).value) != PARTITION
  {
    assert path == path[..d] + path[d..];
    ResolveConcat(edges, root, path[..d], path[d..]);
    var m := Resolve(edges, root, path[..d]).value;
    assert (m, path[d..][0]) in edges;
  }

  /** A partition is on the way, and the rest of the path is inside it. */
  ghost predicate LeadsToPartition(edges: Edges, layers: Layers, root: bytes, path: Path, partition: bytes, rest: Path) {
    && rest != [] && |rest| <= |path| && rest == path[|path| - |rest|..]
    && Resolve(edges, root, path[..|path| - |rest|]) == Some(partition) && LayerOf(layers, partition) == PARTITION
  }

  ghost predicate Inside(edges: Edges, layers: Layers, root: bytes, path: Path) {
    exists partition, rest :: LeadsToPartition(edges, layers, root, path, partition, rest)
  }

  /** A path leads into one partition only: no partition is on the way to another. */
  lemma LeadsOnce(edges: Edges, layers: Layers, root: bytes, path: Path, p: bytes, rest: Path, q: bytes, more: Path)
    requires Leaves(edges, layers)
    requires LeadsToPartition(edges, layers, root, path, p, rest) && LeadsToPartition(edges, layers, root, path, q, more)
    ensures p == q && rest == more
  {
    hide Leaves, Resolve;
    if |rest| < |more| {
      LeadsDeeper(edges, layers, root, path, |path| - |more|, |path| - |rest|);
    } else if |more| < |rest| {
      LeadsDeeper(edges, layers, root, path, |path| - |rest|, |path| - |more|);
    }
  }

  lemma LeadsDeeper(edges: Edges, layers: Layers, root: bytes, path: Path, high: nat, low: nat)
    requires Leaves(edges, layers) && high < low <= |path| && Resolve(edges, root, path[..low]).Some?
    ensures Resolve(edges, root, path[..high]).Some? && LayerOf(layers, Resolve(edges, root, path[..high]).value) != PARTITION
  {
    assert path[..low][..high] == path[..high];
    WayIsOpen(edges, layers, root, path[..low], high);
  }

  /** A path is that of a directory of this layer, leads into a partition, or is absent, and only one of them. */
  lemma Places(edges: Edges, layers: Layers, root: bytes, path: Path)
    requires Leaves(edges, layers)
    ensures Resolve(edges, root, path).Some? ==> !Inside(edges, layers, root, path) && !Absent(edges, layers, root, path)
    ensures Inside(edges, layers, root, path) ==> !Absent(edges, layers, root, path)
    ensures Resolve(edges, root, path).Some? || Inside(edges, layers, root, path) || Absent(edges, layers, root, path)
  {
    hide Leaves;
    forall partition, rest | LeadsToPartition(edges, layers, root, path, partition, rest)
      ensures Resolve(edges, root, path).None? && !Absent(edges, layers, root, path)
    {
      assert path[..|path| - |rest|] <= path;
      if Resolve(edges, root, path).Some? { WayIsOpen(edges, layers, root, path, |path| - |rest|); }
    }
    if Resolve(edges, root, path).None? && !Absent(edges, layers, root, path) {
      var q :| q <= path && Resolve(edges, root, q).Some? && LayerOf(layers, Resolve(edges, root, q).value) == PARTITION;
      OnTheWay(edges, layers, root, path, q);
    }
  }

  lemma OnTheWay(edges: Edges, layers: Layers, root: bytes, path: Path, q: Path)
    requires q <= path && q != path && Resolve(edges, root, q).Some?
    requires LayerOf(layers, Resolve(edges, root, q).value) == PARTITION
    ensures LeadsToPartition(edges, layers, root, path, Resolve(edges, root, q).value, path[|q|..])
  {
    assert q == path[..|q|];
    assert |q| == |path| ==> q == path;
    var rest := path[|q|..];
    assert |path| - |rest| == |q|;
    hide Resolve;
  }

  /** Where the walk along a path ends, and in which partition. */
  lemma Located(edges: Edges, layers: Layers, root: bytes, path: Path, d: nat)
    requires Wellformed(edges, layers, root) && d <= |path| && Resolve(edges, root, path[..d]).Some?
    requires d < |path| ==> LayerOf(layers, Resolve(edges, root, path[..d]).value) == PARTITION
    ensures d < |path| ==> Inside(edges, layers, root, path)
    ensures forall partition, rest :: LeadsToPartition(edges, layers, root, path, partition, rest) ==>
              d < |path| && partition == Resolve(edges, root, path[..d]).value && rest == path[d..]
  {
    hide Resolve, Tree, LayerOf, LeadsToPartition;
    Places(edges, layers, root, path);
    if d < |path| {
      InPartition(edges, layers, root, path, d);
    } else {
      assert path[..d] == path;
    }
    hide Shaped;
    forall partition, rest | LeadsToPartition(edges, layers, root, path, partition, rest)
      ensures d < |path| && partition == Resolve(edges, root, path[..d]).value && rest == path[d..]
    {
      if d < |path| { LeadsOnce(edges, layers, root, path, partition, rest, Resolve(edges, root, path[..d]).value, path[d..]); }
    }
  }

  // ---- What stands in the way ----

  /** After so many allocated prefixes the allocator has none left, or the next one cannot be used. */
  ghost predicate Lacks(live: set<bytes>, content: Content, offered: seq<bytes>, i: nat, e: Error) {
    && i <= |offered| && Supplied(live, content, offered[..i])
    && if i == |offered| then e == NoAllocation
       else if !HasSuccessor(offered[i]) then e == NoSuccessor
       else if !Contentless(content, offered[i]) then e == PrefixNotEmpty
       else !Free(live + Elements(offered[..i]), offered[i]) && e == DirectoryPrefixInUse
  }

  /** The caller's own prefix is in use, or no key comes after all those it would hold. */
  ghost predicate Clashes(live: set<bytes>, x: bytes, e: Error) {
    && !Usable(live, x)
    && e == if x != [] && !HasSuccessor(x) && (forall p :: p in live ==> !(p <= x)) then NoSuccessor else DirectoryPrefixInUse
  }

  /** Why a directory with so many missing ancestors is not created: the first prefix that cannot be used. */
  ghost predicate Refuses(live: set<bytes>, content: Content, n: nat, explicit: Option<bytes>, offered: seq<bytes>, e: Error) {
    || (exists i: nat :: i < n && Lacks(live, content, offered, i, e))
    || if explicit.None? then Lacks(live, content, offered, n, e)
       else n <= |offered| && Supplied(live, content, offered[..n]) && Clashes(live + Elements(offered[..n]), explicit.value, e)
  }

  lemma RefusesAbove(live: set<bytes>, content: Content, n: nat, offered: seq<bytes>, e: Error)
    requires Refuses(live, content, n, None, offered, e)
    ensures exists i: nat :: i < n + 1 && Lacks(live, content, offered, i, e)
  {
  }

  lemma ParentRefused(live: set<bytes>, content: Content, n: nat, explicit: Option<bytes>, offered: seq<bytes>, e: Error)
    requires exists i: nat :: i < n && Lacks(live, content, offered, i, e)
    ensures Refuses(live, content, n, explicit, offered, e)
  {
  }

  lemma ChoiceRefused(live: set<bytes>, content: Content, n: nat, offered: seq<bytes>, e: Error)
    requires n <= |offered| && Supplied(live, content, offered[..n])
    requires e == if offered[n..] == [] then NoAllocation else if !HasSuccessor(offered[n..][0]) then NoSuccessor else PrefixNotEmpty
    requires offered[n..] != [] && HasSuccessor(offered[n..][0]) ==> !Contentless(content, offered[n..][0])
    ensures Refuses(live, content, n, None, offered, e)
  {
    hide Supplied, HasSuccessor, Contentless;
    assert offered[n..] == [] <==> n == |offered|;
  }

  lemma LastRefused(live: set<bytes>, content: Content, n: nat, explicit: Option<bytes>, offered: seq<bytes>, x: bytes,
                    e: Error)
    requires n <= |offered| && Supplied(live, content, offered[..n])
    requires if explicit.Some? then x == explicit.value else n < |offered| && x == offered[n] && HasSuccessor(x) && Contentless(content, x)
    requires !Usable(live + Elements(offered[..n]), x)
    requires e == if x != [] && !HasSuccessor(x) && (forall p :: p in live + Elements(offered[..n]) ==> !(p <= x))
                  then NoSuccessor else DirectoryPrefixInUse
    ensures Refuses(live, content, n, explicit, offered, e)
  {
    hide Supplied, HasSuccessor, Contentless, Free, Elements;
    if explicit.None? {
      assert Lacks(live, content, offered, n, e);
    } else {
      assert Clashes(live + Elements(offered[..n]), x, e);
    }
  }

  lemma LeadsNowhere(edges: Edges, layers: Layers, root: bytes)
    ensures forall partition, rest :: !LeadsToPartition(edges, layers, root, [], partition, rest)
  {
  }

  lemma NotInside(edges: Edges, layers: Layers, root: bytes, path: Path)
    requires !Inside(edges, layers, root, path)
    ensures forall partition, rest :: !LeadsToPartition(edges, layers, root, path, partition, rest)
  {
  }

  /** Why a move does not take place. */
  ghost predicate Blocks(edges: Edges, layers: Layers, root: bytes, from: Path, to: Path, r: Outcome) {
    if from == [] then r == Failed(CannotMoveRoot)
    else if from <= to then r == Failed(CannotMoveIntoSubdirectory)
    else if Absent(edges, layers, root, from) then r == Failed(PathDoesNotExist)
    else if SamePartition(edges, layers, root, from, to) then
      forall p, rest, more :: BothLead(edges, layers, root, from, to, p, rest, more) ==> r == DelegatedMove(p, rest, more)
    else if Inside(edges, layers, root, from) || Inside(edges, layers, root, to) then r == Failed(CannotMoveBetweenPartitions)
    else if Resolve(edges, root, to).Some? then r == Failed(DirectoryAlreadyExists)
    else to != [] && Absent(edges, layers, root, Front(to)) && r == Failed(ParentDirectoryDoesNotExist)
  }

  ghost predicate BothLead(edges: Edges, layers: Layers, root: bytes, from: Path, to: Path, p: bytes, rest: Path, more: Path) {
    LeadsToPartition(edges, layers, root, from, p, rest) && LeadsToPartition(edges, layers, root, to, p, more)
  }

  ghost predicate SamePartition(edges: Edges, layers: Layers, root: bytes, from: Path, to: Path) {
    exists p, rest, more :: BothLead(edges, layers, root, from, to, p, rest, more)
  }

  /** Paths into one partition go the same way to it. */
  lemma SameWay(edges: Edges, layers: Layers, root: bytes, from: Path, to: Path, d: nat, g: nat)
    requires Wellformed(edges, layers, root) && d <= |from| && g <= |to|
    requires Resolve(edges, root, from[..d]).Some? && Resolve(edges, root, to[..g]).Some?
    ensures Resolve(edges, root, from[..d]) == Resolve(edges, root, to[..g]) <==> from[..d] == to[..g]
  {
    var live := Live(layers, root);
    if Resolve(edges, root, from[..d]) == Resolve(edges, root, to[..g]) {
      UniquePath(edges, live, root, from[..d], to[..g]);
    }
  }

  /** Both ends of a move are there: in one partition, in different ones, or in this layer. */
  lemma BlockedThere(edges: Edges, layers: Layers, root: bytes, from: Path, to: Path, d: nat, g: nat)
    requires Wellformed(edges, layers, root) && from != [] && !(from <= to) && d <= |from| && g <= |to|
    requires Resolve(edges, root, from[..d]).Some? && Resolve(edges, root, to[..g]).Some?
    requires d < |from| ==> LayerOf(layers, Resolve(edges, root, from[..d]).value) == PARTITION
    requires g < |to| ==> LayerOf(layers, Resolve(edges, root, to[..g]).value) == PARTITION
    ensures Blocks(edges, layers, root, from, to,
                   if d < |from| && g < |to| && from[..d] == to[..g] then
                     DelegatedMove(Resolve(edges, root, from[..d]).value, from[d..], to[g..])
                   else if d < |from| || g < |to| then Failed(CannotMoveBetweenPartitions)
                   else Failed(DirectoryAlreadyExists))
  {
    hide Resolve, Tree, LayerOf, Shaped, Absent, LeadsToPartition;
    SameWay(edges, layers, root, from, to, d, g);
    Located(edges, layers, root, from, d);
    Located(edges, layers, root, to, g);
    Locates(edges, layers, root, from, d);
    Locates(edges, layers, root, to, g);
    if d < |from| && g < |to| && from[..d] == to[..g] {
      assert BothLead(edges, layers, root, from, to, Resolve(edges, root, from[..d]).value, from[d..], to[g..]);
    }
  }

  lemma Locates(edges: Edges, layers: Layers, root: bytes, path: Path, d: nat)
    requires Wellformed(edges, layers, root) && d <= |path| && Resolve(edges, root, path[..d]).Some?
    requires d < |path| ==> LayerOf(layers, Resolve(edges, root, path[..d]).value) == PARTITION
    ensures !Absent(edges, layers, root, path)
    ensures d < |path| ==> LeadsToPartition(edges, layers, root, path, Resolve(edges, root, path[..d]).value, path[d..])
    ensures d == |path| ==> Resolve(edges, root, path).Some?
  {
    Places(edges, layers, root, path);
    NotAbsent(edges, layers, root, path, d);
    if d < |path| { InPartition(edges, layers, root, path, d); } else { assert path[..d] == path; }
  }

  /** The destination is free: the directory is in a partition, or there is nothing to hang it under. */
  lemma BlockedFree(edges: Edges, layers: Layers, root: bytes, from: Path, to: Path, d: nat)
    requires Wellformed(edges, layers, root) && from != [] && !(from <= to) && d <= |from|
    requires Resolve(edges, root, from[..d]).Some?
    requires d < |from| ==> LayerOf(layers, Resolve(edges, root, from[..d]).value) == PARTITION
    requires Absent(edges, layers, root, to)
    ensures d < |from| ==> Blocks(edges, layers, root, from, to, Failed(CannotMoveBetweenPartitions))
    ensures d == |from| && to != [] && Absent(edges, layers, root, Front(to)) ==>
              Blocks(edges, layers, root, from, to, Failed(ParentDirectoryDoesNotExist))
  {
    hide Resolve, Tree, LayerOf, LeadsToPartition;
    Places(edges, layers, root, to);
    Located(edges, layers, root, from, d);
    Locates(edges, layers, root, from, d);
    AbsentNone(edges, layers, root, to);
    hide Absent;
  }

  // ---- What the steps come to ----

  lemma GrewFront(e: Edges, l: Layers, e': Edges, l': Layers, root: bytes, path: Path)
    requires path != [] && Grew(e, l, e', l', root, Front(path))
    ensures Grew(e, l, e', l', root, path)
  {
    GrewNot(e', l', root, path);
    GrewTwice(e, l, e', l', e', l', root, path);
  }

  lemma CreateEnds(e0: Edges, l0: Layers, edges: Edges, layers: Layers, root: bytes, path: Path, parent: bytes,
                   x: bytes, layer: bytes)
    requires path != [] && Absent(e0, l0, root, path) && Grew(e0, l0, edges, layers, root, Front(path))
    requires Wellformed(edges, layers, root) && Free(Live(layers, root), x) && HasSuccessor(x)
    requires Resolve(edges, root, Front(path)) == Some(parent) && LayerOf(layers, parent) != PARTITION
    ensures var edges', layers' := edges[(parent, Last(path)) := x], layers[x := layer];
            && Wellformed(edges', layers', root) && Grew(e0, l0, edges', layers', root, path)
            && Resolve(edges', root, path) == Some(x) && LayerOf(layers', x) == layer && Free(Live(l0, root), x)
    ensures Resolve(edges, root, path).None?
  {
    StillAbsent(e0, l0, edges, layers, root, path);
    assert Live(l0, root) <= Live(layers, root);
    assert Free(Live(l0, root), x);
    hide Absent, Wellformed, Free, HasSuccessor, Resolve;
    Joins(edges, layers, root, path, parent, x, layer);
    GrewTwice(e0, l0, edges, layers, edges[(parent, Last(path)) := x], layers[x := layer], root, path);
  }

  lemma JoinKeeps(e0: Edges, edges: Edges, layers: Layers, root: bytes, path: Path, parent: bytes, x: bytes, layer: bytes,
                  offered: seq<bytes>)
    requires Wellformed(edges, layers, root) && path != [] && Resolve(edges, root, path).None?
    requires Free(Live(layers, root), x) && HasSuccessor(x)
    requires Resolve(edges, root, Front(path)) == Some(parent) && LayerOf(layers, parent) != PARTITION
    requires Lined(e0, edges, layers, root, path, offered)
    ensures Lined(e0, edges[(parent, Last(path)) := x], layers[x := layer], root, path, offered)
  {
    hide Wellformed, Free, HasSuccessor, Resolve, Lined;
    Joins(edges, layers, root, path, parent, x, layer);
    LinedStill(e0, edges, layers, edges[(parent, Last(path)) := x], layers[x := layer], root, path, offered);
  }

  lemma RangeIsExtensions(p: bytes, end: bytes)
    requires IsSuccessor(p, end)
    ensures forall k :: p <= k <==> Compare(p, k) <= 0 && Compare(k, end) < 0
  {
    forall k ensures p <= k <==> Compare(p, k) <= 0 && Compare(k, end) < 0 {
      assert AtMost(p, k) <==> Compare(p, k) <= 0;
    }
  }

  lemma ChildrenRead(e0: Edges, l0: Layers, c0: Content, edges: Edges, layers: Layers, content: Content, root: bytes,
                     gone: set<bytes>, p: bytes)
    requires Wellformed(e0, l0, root) && p in l0 && gone !! Below(e0, Live(l0, root), p)
    requires Gone(e0, l0, c0, edges, layers, content, gone)
    ensures Children(edges, p) == Children(e0, p)
    ensures forall e :: e in Children(e0, p) ==> e in e0 && e in edges && edges[e] == e0[e]
    ensures BelowSome(e0, Live(l0, root), {}) == {} && gone + {} == gone
    ensures forall all: set<(bytes, string)> :: all + {} == all && all !! {}
  {
    BelowOne(e0, Live(l0, root), root, p, p);
    SameChildren(e0, gone, p);
  }

  lemma NextChild(e0: Edges, l0: Layers, root: bytes, p: bytes, gone: set<bytes>, some: set<(bytes, string)>,
                  e: (bytes, string))
    requires Wellformed(e0, l0, root) && p in l0 && gone !! Below(e0, Live(l0, root), p)
    requires some <= Children(e0, p) && e in Children(e0, p) && e !in some
    ensures var live := Live(l0, root);
            && e0[e] in l0 && Below(e0, live, e0[e]) < Below(e0, live, p)
            && gone + BelowSome(e0, live, some) !! Below(e0, live, e0[e])
            && gone + BelowSome(e0, live, some) + Below(e0, live, e0[e]) == gone + BelowSome(e0, live, some + {e})
  {
    var live := Live(l0, root);
    BelowSomeMore(e0, live, root, p, some, e);
    ChildBelow(e0, live, root, e);
    BelowOne(e0, live, root, p, p);
    hide Below, BelowSome, Under;
  }

  lemma LastlyItself(e0: Edges, l0: Layers, c0: Content, edges: Edges, layers: Layers, content: Content, root: bytes,
                     gone: set<bytes>, p: bytes, some: set<(bytes, string)>)
    requires Wellformed(e0, l0, root) && p in l0 && some == Children(e0, p)
    requires Gone(e0, l0, c0, edges, layers, content, gone + BelowSome(e0, Live(l0, root), some))
    ensures HasSuccessor(p)
    ensures Gone(e0, l0, c0, Cut(edges, {p}), layers - {p}, Wiped(content, {p}), gone + Below(e0, Live(l0, root), p))
  {
    var live := Live(l0, root);
    BelowAll(e0, live, root, p);
    GoneMore(e0, l0, c0, edges, layers, content, gone + BelowSome(e0, live, some), p);
    assert gone + BelowSome(e0, live, some) + {p} == gone + Below(e0, live, p);
    hide Gone, HasSuccessor;
  }

  lemma ParentOf(edges: Edges, layers: Layers, root: bytes, path: Path, x: bytes) returns (parent: bytes)
    requires Wellformed(edges, layers, root) && path != [] && Resolve(edges, root, path) == Some(x)
    ensures Resolve(edges, root, Front(path)) == Some(parent) && (parent, Last(path)) in edges && edges[(parent, Last(path))] == x
    ensures x in layers && LayerOf(layers, parent) != PARTITION
  {
    ResolveLast(edges, root, path);
    parent := Resolve(edges, root, Front(path)).value;
    assert (parent, Last(path)) in edges;
  }

  lemma {:induction false} ResolveMore(edges: Edges, more: Edges, from: bytes, path: Path)
    requires forall e :: e in edges ==> e in more && more[e] == edges[e]
    requires Resolve(edges, from, path).Some?
    ensures Resolve(more, from, path) == Resolve(edges, from, path)
    decreases |path|
  {
    if path != [] { ResolveMore(edges, more, edges[(from, path[0])], path[1..]); }
  }

  lemma AfterRemoval(e0: Edges, l0: Layers, c0: Content, edges: Edges, layers: Layers, content: Content, root: bytes,
                     path: Path, parent: bytes, x: bytes)
    requires Wellformed(e0, l0, root) && path != [] && Resolve(e0, root, path) == Some(x)
    requires Resolve(e0, root, Front(path)) == Some(parent) && LayerOf(l0, parent) != PARTITION
    requires Gone(e0, l0, c0, edges, layers, content, {} + Below(e0, Live(l0, root), x))
    ensures var gone := Below(e0, Live(l0, root), x);
            && layers == l0 - gone && content == Wiped(c0, gone)
    ensures var after := edges - {(parent, Last(path))};
            && Wellformed(after, layers, root)
            && forall q :: Resolve(after, root, q) == Removed(e0, root, path, q)
    ensures root !in layers && Leaves(edges, layers) && LayerOf(layers, parent) != PARTITION
    ensures Resolve(edges, root, Front(path)) == Some(parent)
  {
    var gone := Below(e0, Live(l0, root), x);
    assert {} + gone == gone;
    RemovalKeeps(e0, l0, root, path, parent, x);
    var after := edges - {(parent, Last(path))};
    assert after == Pruned(e0, Live(l0, root), path, parent, x);
    Extends(path, path);
    assert Resolve(after, root, Front(path)) == Removed(e0, root, path, Front(path));
    hide Resolve, Tree, Below, Removed, Wiped;
    ResolveMore(after, edges, root, Front(path));
    ShapedLess(e0, l0, edges, layers, root);
  }

  /** What a move asks for: a directory, a free place outside it, and a parent to hang it under. */
  ghost predicate Movable(edges: Edges, layers: Layers, root: bytes, from: Path, to: Path) {
    && from != [] && !(from <= to)
    && Resolve(edges, root, from).Some? && Absent(edges, layers, root, to)
    && to != [] && Resolve(edges, root, Front(to)).Some?
  }

  lemma AbsentNone(edges: Edges, layers: Layers, root: bytes, path: Path)
    requires Absent(edges, layers, root, path)
    ensures Resolve(edges, root, path).None? && path != []
  {
  }

  /** Below a partition this layer resolves nothing. */
  lemma InPartition(edges: Edges, layers: Layers, root: bytes, path: Path, d: nat)
    requires Wellformed(edges, layers, root) && d < |path|
    requires Resolve(edges, root, path[..d]).Some? && LayerOf(layers, Resolve(edges, root, path[..d]).value) == PARTITION
    ensures Resolve(edges, root, path).None?
    ensures LeadsToPartition(edges, layers, root, path, Resolve(edges, root, path[..d]).value, path[d..])
  {
    if Resolve(edges, root, path).Some? { WayIsOpen(edges, layers, root, path, d); }
  }

  lemma NotAbsent(edges: Edges, layers: Layers, root: bytes, path: Path, d: nat)
    requires d <= |path| && Resolve(edges, root, path[..d]).Some?
    requires d < |path| ==> LayerOf(layers, Resolve(edges, root, path[..d]).value) == PARTITION
    ensures !Absent(edges, layers, root, path)
  {
    assert path[..d] <= path;
    assert d == |path| ==> path[..d] == path;
  }

  /** A directory and the node it is to hang under. */
  ghost predicate CanHang(edges: Edges, layers: Layers, root: bytes, from: Path, to: Path, x: bytes, parent: bytes) {
    && from != [] && to != [] && LayerOf(layers, parent) != PARTITION
    && Resolve(edges, root, Front(from)).Some?
    && var oldParent := Resolve(edges, root, Front(from)).value;
       && CanMove(edges, Live(layers, root), root, from, to, oldParent, parent)
       && edges[(oldParent, Last(from))] == x && LayerOf(layers, oldParent) != PARTITION
  }

  lemma MoveStarts(edges: Edges, layers: Layers, root: bytes, from: Path, to: Path, x: bytes, parent: bytes, d: nat)
    requires Wellformed(edges, layers, root) && from != [] && to != [] && !(from <= to)
    requires Resolve(edges, root, from) == Some(x) && Absent(edges, layers, root, to)
    requires d <= |Front(to)| && Resolve(edges, root, Front(to)[..d]) == Some(parent)
    requires d < |Front(to)| ==> LayerOf(layers, parent) == PARTITION
    ensures CanHang(edges, layers, root, from, to, x, parent)
    ensures Resolve(edges, root, Front(to)).Some?
  {
    var oldParent := ParentOf(edges, layers, root, from, x);
    assert Front(to)[..d] <= to;
    assert d == |Front(to)|;
    assert Front(to)[..d] == Front(to);
    ResolveLast(edges, root, to);
    hide Resolve, Tree, Shaped;
  }

  /** Halfway through a move the directory hangs at both paths. */
  lemma MoveMiddle(edges: Edges, layers: Layers, root: bytes, from: Path, to: Path, parent: bytes, x: bytes)
    returns (oldParent: bytes)
    requires Wellformed(edges, layers, root) && CanHang(edges, layers, root, from, to, x, parent)
    ensures from != [] && to != [] && LayerOf(layers, oldParent) != PARTITION
    ensures var both := edges[(parent, Last(to)) := x];
            && Leaves(both, layers) && Resolve(both, root, Front(from)) == Some(oldParent)
            && Wellformed(both - {(oldParent, Last(from))}, layers, root)
            && forall q :: Resolve(both - {(oldParent, Last(from))}, root, q) == Relabelled(edges, root, from, to, q)
  {
    oldParent := Resolve(edges, root, Front(from)).value;
    var both := edges[(parent, Last(to)) := x];
    assert Rewired(edges, from, to, oldParent, parent) == both - {(oldParent, Last(from))};
    MoveSubtree(edges, Live(layers, root), root, from, to, oldParent, parent);
    MoveShaped(edges, layers, root, (parent, Last(to)), (oldParent, Last(from)), x);
    hide Tree, Relabelled, Shaped, Rewired;
    ResolveMore(edges, both, root, Front(from));
  }

  lemma MoveShaped(edges: Edges, layers: Layers, root: bytes, e: (bytes, string), f: (bytes, string), x: bytes)
    requires Shaped(edges, layers, root) && LayerOf(layers, e.0) != PARTITION
    ensures Shaped(edges[e := x] - {f}, layers, root) && Leaves(edges[e := x], layers)
  {
    hide HasSuccessor, Antichain, Live;
  }

  /** The rows that tell of nodes: each directory's layer row, and the version row of the metadata root, written
      before the first directory is. A node's rows for its children stand beside its own. */
  function MetadataRows(layers: Layers, root: bytes): set<bytes> {
    (set p | p in layers :: RowKey(p, LAYER)) + {RowKey(root, VERSION)}
  }

  lemma RowsAreMetadata(layers: Layers, root: bytes)
    ensures Metadata(MetadataRows(layers, root), Live(layers, root))
  {
    var rows, live := MetadataRows(layers, root), Live(layers, root);
    hide IsRow, RowKey;
    forall p | p in live ensures exists k, rest :: k in rows && IsRow(k, p, rest) {
      if p in layers { assert RowKey(p, LAYER) in rows; } else { assert RowKey(root, VERSION) in rows; }
    }
  }

  predicate Compatible(expected: Option<bytes>, layer: bytes) {
    expected.None? || expected.value == [] || expected.value == layer
  }

  /** What a creation leaves: exactly the prefixes used are live besides the old ones, and the rest of the offer is left. */
  ghost predicate Made(edges: Edges, l: Layers, l': Layers, root: bytes, path: Path, explicit: Option<bytes>,
                       layer: Option<bytes>, offered: seq<bytes>, r: Outcome, left: seq<bytes>)
    requires path != [] && r.Opened?
  {
    var n := Needed(edges, root, Front(path));
    && n <= |offered| && (explicit.None? ==> n < |offered|)
    && r.prefix == (if explicit.Some? then explicit.value else offered[n])
    && r.layer == (if layer.Some? then layer.value else [])
    && Live(l', root) == Live(l, root) + Elements(Uses(explicit, offered, n))
    && left == offered[if explicit.Some? then n else n + 1..]
  }

  /** The missing ancestors of a path are there, each under the next of the prefixes offered and without a layer. */
  ghost predicate Lined(edges: Edges, edges': Edges, layers': Layers, root: bytes, path: Path, offered: seq<bytes>) {
    forall q :: q <= path && q != path && q != [] && Resolve(edges, root, q).None? ==>
      var i := Needed(edges, root, Front(q));
      i < |offered| && Resolve(edges', root, q) == Some(offered[i]) && offered[i] in layers' && layers'[offered[i]] == []
  }

  lemma LinedNone(edges: Edges, edges': Edges, layers': Layers, root: bytes, path: Path, offered: seq<bytes>)
    requires path != [] && Resolve(edges, root, Front(path)).Some?
    ensures Lined(edges, edges', layers', root, path, offered)
  {
    hide Needed;
    forall q | q <= path && q != path ensures Resolve(edges, root, q).Some? {
      ProperPrefix(path, q);
      WayResolves(edges, root, Front(path), |q|);
    }
  }

  lemma ProperPrefix(path: Path, q: Path)
    requires path != []
    ensures q <= path && q != path ==> |q| <= |Front(path)| && q == Front(path)[..|q|]
    ensures q <= path && q != path ==> q <= Front(path)
  {
    if q <= path && |q| == |path| { assert q == path; }
  }

  lemma WayResolves(edges: Edges, root: bytes, path: Path, d: nat)
    requires Resolve(edges, root, path).Some? && d <= |path|
    ensures Resolve(edges, root, path[..d]).Some?
  {
    assert path == path[..d] + path[d..];
    ResolveConcat(edges, root, path[..d], path[d..]);
  }

  lemma LinedMore(edges: Edges, l: Layers, edges': Edges, layers': Layers, root: bytes, path: Path, offered: seq<bytes>,
                  r: Outcome, left: seq<bytes>)
    requires path != [] && Front(path) != [] && r.Opened? && Lined(edges, edges', layers', root, Front(path), offered)
    requires Made(edges, l, layers', root, Front(path), None, None, offered, r, left)
    requires Resolve(edges', root, Front(path)) == Some(r.prefix) && r.prefix in layers' && layers'[r.prefix] == r.layer
    ensures Lined(edges, edges', layers', root, path, offered)
  {
    hide Needed, Resolve, Live, Elements, Uses;
    forall q | q <= path && q != path && q != [] && Resolve(edges, root, q).None?
      ensures var i := Needed(edges, root, Front(q));
              i < |offered| && Resolve(edges', root, q) == Some(offered[i]) && offered[i] in layers' && layers'[offered[i]] == []
    {
      ProperPrefix(path, q);
    }
  }

  lemma LinedStill(e0: Edges, edges: Edges, layers: Layers, edges': Edges, layers': Layers, root: bytes, path: Path,
                   offered: seq<bytes>)
    requires Lined(e0, edges, layers, root, path, offered) && Grew(edges, layers, edges', layers', root, path)
    ensures Lined(e0, edges', layers', root, path, offered)
  {
    hide Needed, Resolve;
  }

  lemma CompatibleMeans(expected: Option<bytes>, layer: bytes)
    ensures Compatible(expected, layer) <==> !(expected.Some? && expected.value != [] && expected.value != layer)
  {
  }

  lemma ReadsToo(version: Version)
    ensures Accepts(version, true) ==> Accepts(version, false)
  {
  }

  lemma SuppliedNone(live: set<bytes>, content: Content, offered: seq<bytes>)
    ensures offered[..0] == [] && offered[0..] == offered && Supplied(live, content, []) && Elements([]) == {} && live + {} == live
  {
  }

  lemma NoExpectation()
    ensures forall layer :: Compatible(None, layer)
  {
  }

  lemma CreatableParts(edges: Edges, layers: Layers, content: Content, root: bytes, path: Path,
                       explicit: Option<bytes>, offered: seq<bytes>)
    requires path != []
    ensures var n := Needed(edges, root, Front(path));
            Creatable(edges, layers, content, root, path, explicit, offered) <==>
              && n <= |offered| && Supplied(Live(layers, root), content, offered[..n])
              && (explicit.None? ==> n < |offered| && Contentless(content, offered[n]))
              && Usable(Live(layers, root) + Elements(offered[..n]), if explicit.Some? then explicit.value else offered[n])
    ensures forall live, x :: Usable(live, x) <==> HasSuccessor(x) && Free(live, x)
  {
    hide HasSuccessor, Free, Contentless, Supplied;
  }

  lemma MadeSo(edges: Edges, l0: Layers, layers: Layers, root: bytes, path: Path, explicit: Option<bytes>,
               layer: Option<bytes>, offered: seq<bytes>, x: bytes, written: bytes, left: seq<bytes>)
    requires path != [] && written == if layer.Some? then layer.value else []
    requires var n := Needed(edges, root, Front(path));
             && n <= |offered| && Live(layers, root) == Live(l0, root) + Elements(offered[..n])
             && if explicit.Some? then x == explicit.value && left == offered[n..]
                else n < |offered| && x == offered[n] && left == offered[n..][1..]
    ensures Made(edges, l0, layers[x := written], root, path, explicit, layer, offered, Opened(x, written), left)
  {
    hide Needed;
    assert Live(layers[x := written], root) == Live(layers, root) + {x};
    hide Live;
    var n := Needed(edges, root, Front(path));
    var used := offered[..n] + [x];
    assert Elements(used) == Elements(offered[..n]) + {x};
    hide Elements;
    assert explicit.None? ==> used == offered[..n + 1];
  }

  /** Where a parent was opened nothing was used up; where it was created, what it and its ancestors needed. */
  lemma OpenedParent(edges: Edges, l0: Layers, layers: Layers, root: bytes, path: Path, offered: seq<bytes>,
                     r: Outcome, left: seq<bytes>)
    requires path != [] && Front(path) != [] && Absent(edges, l0, root, path) && r.Opened?
    requires if Resolve(edges, root, Front(path)).Some? then
               left == offered && layers == l0 && Resolve(edges, root, Front(path)) == Some(r.prefix) && r.layer == LayerOf(layers, r.prefix)
             else Made(edges, l0, layers, root, Front(path), None, None, offered, r, left)
    ensures var n := Needed(edges, root, Front(path));
            n <= |offered| && left == offered[n..] && Live(layers, root) == Live(l0, root) + Elements(offered[..n])
    ensures r.layer != PARTITION
  {
    AbsentAbove(edges, l0, root, path);
    assert offered[..0] == [] && Elements([]) == {};
    hide Live, Elements;
    assert Live(l0, root) + {} == Live(l0, root);
  }

  class DirectoryLayer {
    const root: bytes
    const allowManual: bool
    const nested: bool
    var edges: Edges
    var layers: Layers
    var content: Content
    var version: Version

    constructor (root: bytes, allowManual: bool, nested: bool)
      ensures Wellformed(edges, layers, root) && this.root == root && edges == map[] && layers == map[] && content == map[]
    {
      this.root, this.allowManual, this.nested := root, allowManual, nested;
      edges, layers, content, version := map[], map[], map[], Unset;
      new;
      assert Resolve(edges, root, []) == Some(root);
    }

    /** Refuses a version this code cannot read, or cannot write; writes the first one. */
    method CheckVersion(write: bool) returns (ok: bool)
      modifies this`version
      ensures ok <==> Accepts(old(version), write)
      ensures ok ==> Accepts(version, write)
      ensures match old(version)
              case Unset => ok
              case Malformed => !ok
              case Version(major, minor) => ok <==> major <= 1 && (write ==> minor == 0)
      ensures version == if old(version).Unset? && write then Version(1, 0) else old(version)
    {
      match version {
        case Unset =>
          if write { version := Version(1, 0); }
          return true;
        case Malformed => return false;
        case Version(major, minor) =>
          if major > 1 { return false; }
          if write && minor > 0 { return false; }
          return true;
      }
    }

    /** Walks a path from the root; the walk ends early at a partition. */
    method FindNode(path: Path) returns (found: Found)
      requires root !in layers
      ensures found.Missing? ==> Absent(edges, layers, root, path)
      ensures found.Node? ==> found.depth <= |path| && Resolve(edges, root, path[..found.depth]) == Some(found.prefix)
                              && (found.depth < |path| ==> LayerOf(layers, found.prefix) == PARTITION)
    {
      var node := root;
      assert path[..0] == [];
      for i := 0 to |path|
        invariant Resolve(edges, root, path[..i]) == Some(node)
        invariant forall d :: 0 <= d <= i ==> Resolve(edges, root, path[..d]).Some?
                                              && LayerOf(layers, Resolve(edges, root, path[..d]).value) != PARTITION
      {
        ResolveLast(edges, root, path[..i + 1]);
        assert Front(path[..i + 1]) == path[..i];
        if (node, path[i]) !in edges {
          StopsHere(path, i);
          return Missing;
        }
        node := edges[(node, path[i])];
        if LayerOf(layers, node) == PARTITION { return Node(node, i + 1); }
      }
      assert path[..|path|] == path;
      return Node(node, |path|);
    }

    lemma StopsHere(path: Path, i: nat)
      requires i < |path| && Resolve(edges, root, path[..i + 1]).None?
      requires forall d :: 0 <= d <= i ==> Resolve(edges, root, path[..d]).Some?
                                           && LayerOf(layers, Resolve(edges, root, path[..d]).value) != PARTITION
      ensures Absent(edges, layers, root, path)
    {
      forall q | q <= path && Resolve(edges, root, q).Some?
        ensures |q| <= i && q == path[..|q|]
      {
        if |q| > i {
          assert q == path[..i + 1] + q[i + 1..];
          ResolveConcat(edges, root, path[..i + 1], q[i + 1..]);
        }
      }
      assert path <= path;
    }

    // ---- Create and open ----

    /** Opens the directory at a path, or creates it with every missing ancestor. Prefixes for new
        directories come from the caller for the last one, or from the allocator in turn. */
    method CreateOrOpen(path: Path, explicit: Option<bytes>, expected: Option<bytes>, allowCreate: bool, allowOpen: bool,
                        offered: seq<bytes>) returns (r: Outcome, left: seq<bytes>)
      requires Wellformed(edges, layers, root)
      modifies this`edges, this`layers, this`version
      ensures Wellformed(edges, layers, root) && Grew(old(edges), old(layers), edges, layers, root, path)
      ensures r.Opened? ==> Resolve(edges, root, path) == Some(r.prefix) && LayerOf(layers, r.prefix) == r.layer
                            && if Resolve(old(edges), root, path).Some? then
                                 allowOpen && edges == old(edges) && layers == old(layers)
                               else
                                 allowCreate && Free(Live(old(layers), root), r.prefix)
      ensures r.Opened? <==>
                && Accepts(old(version), false) && (explicit.None? || allowManual) && path != []
                && if Resolve(old(edges), root, path).Some? then
                     allowOpen && Compatible(expected, LayerOf(old(layers), Resolve(old(edges), root, path).value))
                   else
                     && allowCreate && Absent(old(edges), old(layers), root, path)
                     && Accepts(old(version), true) && Creatable(old(edges), old(layers), content, root, path, explicit, offered)
      ensures r.Opened? ==>
                if Resolve(old(edges), root, path).Some? then left == offered
                else
                  && Made(old(edges), old(layers), layers, root, path, explicit, expected, offered, r, left)
                  && Lined(old(edges), edges, layers, root, path, offered) && r.prefix in layers
      ensures r.Delegated? ==> edges == old(edges) && LeadsToPartition(edges, layers, root, path, r.partition, r.rest)
      ensures !r.Done? && !r.DelegatedMove?
      ensures !Accepts(old(version), false) ==> r == Failed(VersionError)
      ensures Accepts(old(version), false) && explicit.Some? && !allowManual ==>
                r == Failed(if nested then CannotPrefixInPartition else PrefixNotAllowed)
      ensures Accepts(old(version), false) && (explicit.None? || allowManual) ==>
                && (path == [] ==> r == Failed(NoPathProvided))
                && (forall partition, rest :: LeadsToPartition(old(edges), old(layers), root, path, partition, rest) ==>
                      r == Delegated(partition, rest) && left == offered)
                && (path != [] && Resolve(old(edges), root, path).Some? ==>
                      && (!allowOpen ==> r == Failed(DirectoryAlreadyExists))
                      && (allowOpen && !Compatible(expected, LayerOf(old(layers), Resolve(old(edges), root, path).value)) ==>
                            r == Failed(IncompatibleLayer)))
                && (path != [] && Absent(old(edges), old(layers), root, path) ==>
                      && (!allowCreate ==> r == Failed(DirectoryDoesNotExist))
                      && (allowCreate && !Accepts(old(version), true) ==> r == Failed(VersionError))
                      && (allowCreate && Accepts(old(version), true)
                          && !Creatable(old(edges), old(layers), content, root, path, explicit, offered) ==>
                            r.Failed? && Refuses(Live(old(layers), root), content, Needed(old(edges), root, Front(path)),
                                                 explicit, offered, r.error)))
      ensures version == old(version) || (old(version).Unset? && version == Version(1, 0))
      decreases |path|, 2
    {
      left := offered;
      hide *;
      GrewNot(edges, layers, root, path);
      RootFacts();
      var ok := CheckVersion(false);
      if !ok { return Failed(VersionError), left; }
      if explicit.Some? && !allowManual {
        return Failed(if nested then CannotPrefixInPartition else PrefixNotAllowed), left;
      }
      Places(edges, layers, root, path);
      if path == [] {
        LeadsNowhere(edges, layers, root);
        return Failed(NoPathProvided), left;
      }
      var found := FindNode(path);
      if found.Node? {
        Located(edges, layers, root, path, found.depth);
        NotAbsent(edges, layers, root, path, found.depth);
        if found.depth < |path| {
          InPartition(edges, layers, root, path, found.depth);
          return Delegated(found.prefix, path[found.depth..]), left;
        }
        assert path[..|path|] == path;
        CompatibleMeans(expected, LayerOf(layers, found.prefix));
        if !allowOpen { return Failed(DirectoryAlreadyExists), left; }
        if expected.Some? && expected.value != [] && expected.value != LayerOf(layers, found.prefix) {
          return Failed(IncompatibleLayer), left;
        }
        return Opened(found.prefix, LayerOf(layers, found.prefix)), left;
      }
      AbsentNone(edges, layers, root, path);
      NotInside(edges, layers, root, path);
      if !allowCreate { return Failed(DirectoryDoesNotExist), left; }
      r, left := Create(path, explicit, expected, offered);
    }

    /** Creates the directory at a path that does not exist, its ancestors first. */
    method Create(path: Path, explicit: Option<bytes>, layer: Option<bytes>, offered: seq<bytes>)
      returns (r: Outcome, left: seq<bytes>)
      requires Wellformed(edges, layers, root) && path != [] && Absent(edges, layers, root, path)
      modifies this`edges, this`layers, this`version
      ensures Wellformed(edges, layers, root) && Grew(old(edges), old(layers), edges, layers, root, path)
      ensures r.Opened? ==> Resolve(edges, root, path) == Some(r.prefix) && LayerOf(layers, r.prefix) == r.layer
                            && Free(Live(old(layers), root), r.prefix)
      ensures r.Opened? <==> Accepts(old(version), true) && Creatable(old(edges), old(layers), content, root, path, explicit, offered)
      ensures r.Opened? ==> Made(old(edges), old(layers), layers, root, path, explicit, layer, offered, r, left)
      ensures r.Opened? ==> Lined(old(edges), edges, layers, root, path, offered) && r.prefix in layers
      ensures r.Opened? || r.Failed?
      ensures !Accepts(old(version), true) ==> r == Failed(VersionError)
      ensures r.Failed? && Accepts(old(version), true) ==>
                Refuses(Live(old(layers), root), content, Needed(old(edges), root, Front(path)), explicit, offered, r.error)
      ensures version == old(version) || (old(version).Unset? && version == Version(1, 0))
      decreases |path|, 1
    {
      left := offered;
      ghost var e0, l0 := edges, layers;
      GrewNot(e0, l0, root, path);
      hide *;
      var ok := CheckVersion(true);
      if !ok { return Failed(VersionError), left; }
      var parent: bytes;
      var error: Option<Error>;
      ghost var n := Needed(edges, root, Front(path));
      CreatableParts(e0, l0, content, root, path, explicit, offered);
      parent, left, error := GetParent(path, offered);
      GrewFront(e0, l0, edges, layers, root, path);
      if error.Some? {
        ParentRefused(Live(l0, root), content, n, explicit, offered, error.value);
        return Failed(error.value), left;
      }
      var x: bytes;
      x, left, error := ChoosePrefix(explicit, left);
      if error.Some? {
        ChoiceRefused(Live(l0, root), content, n, offered, error.value);
        return Failed(error.value), left;
      }
      var free := PrefixFree(x);
      if free != Answer(true) {
        LastRefused(Live(l0, root), content, n, explicit, offered, x, if free.InvalidPrefix? then NoSuccessor else DirectoryPrefixInUse);
      }
      if free.InvalidPrefix? { return Failed(NoSuccessor), left; }
      if !free.free { return Failed(DirectoryPrefixInUse), left; }
      var written := if layer.Some? then layer.value else [];
      CreateEnds(e0, l0, edges, layers, root, path, parent, x, written);
      MadeSo(e0, l0, layers, root, path, explicit, layer, offered, x, written, left);
      JoinKeeps(e0, edges, layers, root, path, parent, x, written, offered);
      edges := edges[(parent, Last(path)) := x];
      layers := layers[x := written];
      return Opened(x, written), left;
    }

    /** The node a new directory hangs under, created where it is missing from the prefixes offered. */
    method GetParent(path: Path, offered: seq<bytes>) returns (parent: bytes, left: seq<bytes>, error: Option<Error>)
      requires Wellformed(edges, layers, root) && path != [] && Absent(edges, layers, root, path) && Accepts(version, true)
      modifies this`edges, this`layers, this`version
      ensures Wellformed(edges, layers, root) && Grew(old(edges), old(layers), edges, layers, root, Front(path))
      ensures error.None? ==> Resolve(edges, root, Front(path)) == Some(parent) && LayerOf(layers, parent) != PARTITION
      ensures var n := Needed(old(edges), root, Front(path));
              && (error.None? <==> n <= |offered| && Supplied(Live(old(layers), root), content, offered[..n]))
              && (error.None? ==> left == offered[n..] && Live(layers, root) == Live(old(layers), root) + Elements(offered[..n]))
              && (error.None? ==> Lined(old(edges), edges, layers, root, path, offered))
              && (error.Some? ==> exists i: nat :: i < n && Lacks(Live(old(layers), root), content, offered, i, error.value))
      ensures version == old(version) || (old(version).Unset? && version == Version(1, 0))
      decreases |path|, 0
    {
      hide *;
      left := offered;
      GrewNot(edges, layers, root, Front(path));
      RootFacts();
      AbsentAbove(edges, layers, root, path);
      SuppliedNone(Live(layers, root), content, offered);
      ReadsToo(version);
      if Resolve(edges, root, Front(path)).Some? { LinedNone(edges, edges, layers, root, path, offered); }
      if Front(path) == [] { return root, left, None; }
      ghost var l0 := layers;
      if Resolve(edges, root, Front(path)).None? {
        NeededMore(edges, root, Front(path));
        CreatableBySupply(edges, layers, content, root, Front(path), offered);
      }
      NoExpectation();
      var r: Outcome;
      r, left := CreateOrOpen(Front(path), None, None, true, true, offered);
      match r {
        case DelegatedMove(_, _, _) => return root, left, Some(InvalidMetadata);
        case Opened(p, layer) =>
          OpenedParent(old(edges), l0, layers, root, path, offered, r, left);
          if Resolve(old(edges), root, Front(path)).None? {
            LayerAt(layers, p);
            LinedMore(old(edges), l0, edges, layers, root, path, offered, r, left);
          }
          if layer == PARTITION { return root, left, Some(InvalidMetadata); }
          return p, left, None;
        case Delegated(_, _) => return root, left, Some(InvalidMetadata);
        case Failed(e) =>
          RefusesAbove(Live(l0, root), content, Needed(old(edges), root, Front(Front(path))), offered, e);
          return root, left, Some(e);
      }
    }

    lemma LayerAt(layers: Layers, p: bytes)
      ensures p in layers ==> LayerOf(layers, p) == layers[p]
    {
    }

    lemma RootFacts()
      requires Wellformed(edges, layers, root)
      ensures root !in layers && LayerOf(layers, root) != PARTITION && Resolve(edges, root, []) == Some(root)
      ensures Antichain(Live(layers, root)) && root in Live(layers, root) && Leaves(edges, layers)
    {
    }

    /** The caller's prefix, or the next allocated one, which must still be empty. */
    method ChoosePrefix(explicit: Option<bytes>, offered: seq<bytes>)
      returns (x: bytes, left: seq<bytes>, error: Option<Error>)
      ensures explicit.Some? ==> x == explicit.value && left == offered && error.None?
      ensures explicit.None? && offered != [] ==> x == offered[0] && left == offered[1..]
      ensures explicit.None? ==>
                (error.None? <==> offered != [] && HasSuccessor(offered[0]) && Contentless(content, offered[0]))
      ensures error.Some? ==>
                error.value == if offered == [] then NoAllocation
                               else if !HasSuccessor(offered[0]) then NoSuccessor else PrefixNotEmpty
    {
      if explicit.Some? { return explicit.value, offered, None; }
      if offered == [] { return [], offered, Some(NoAllocation); }
      x, left := offered[0], offered[1..];
      var end := Strinc(x);
      if end == [] { return x, left, Some(NoSuccessor); }
      RangeIsExtensions(x, end);
      if exists k :: k in content && Compare(x, k) <= 0 && Compare(k, end) < 0 { return x, left, Some(PrefixNotEmpty); }
      return x, left, None;
    }

    method PrefixFree(x: bytes) returns (r: FreeResult)
      requires Wellformed(edges, layers, root) && !version.Unset?
      ensures r.Answer? ==> (r.free <==> Free(Live(layers, root), x))
      ensures r == Answer(true) <==> Usable(Live(layers, root), x)
      ensures r.InvalidPrefix? <==> x != [] && !HasSuccessor(x) && forall p :: p in Live(layers, root) ==> !(p <= x)
    {
      RootFacts();
      hide Wellformed, Antichain, Free, MetadataRows, Metadata;
      RowsAreMetadata(layers, root);
      r := IsPrefixFree(MetadataRows(layers, root), Live(layers, root), root, x);
    }

    // ---- Remove ----

    /** Clears a node, everything below it and all their contents, children first. */
    method RemoveRecursive(p: bytes, ghost e0: Edges, ghost l0: Layers, ghost c0: Content, ghost gone: set<bytes>)
      requires Wellformed(e0, l0, root) && p in l0 && gone !! Below(e0, Live(l0, root), p)
      requires Gone(e0, l0, c0, edges, layers, content, gone)
      modifies this`edges, this`layers, this`content
      ensures Gone(e0, l0, c0, edges, layers, content, gone + Below(e0, Live(l0, root), p))
      decreases Below(e0, Live(l0, root), p)
    {
      hide *;
      ghost var live := Live(l0, root);
      var stored, children := edges, Children(edges, p);
      ChildrenRead(e0, l0, c0, edges, layers, content, root, gone, p);
      var todo := children;
      ghost var some: set<(bytes, string)> := {};
      while todo != {}
        invariant children == Children(e0, p) && todo + some == children && todo !! some
        invariant Gone(e0, l0, c0, edges, layers, content, gone + BelowSome(e0, live, some))
        decreases todo
      {
        var e :| e in todo;
        NextChild(e0, l0, root, p, gone, some, e);
        RemoveRecursive(stored[e], e0, l0, c0, gone + BelowSome(e0, live, some));
        todo, some := todo - {e}, some + {e};
      }
      LastlyItself(e0, l0, c0, edges, layers, content, root, gone, p, some);
      ClearNode(p);
    }

    /** The rows of one node and the whole range of keys below its prefix. */
    method ClearNode(p: bytes)
      requires HasSuccessor(p)
      modifies this`edges, this`layers, this`content
      ensures edges == Cut(old(edges), {p}) && layers == old(layers) - {p} && content == Wiped(old(content), {p})
    {
      var end := Strinc(p);
      RangeIsExtensions(p, end);
      content := map k | k in content && !(Compare(p, k) <= 0 && Compare(k, end) < 0) :: content[k];
      edges := Cut(edges, {p});
      layers := layers - {p};
    }

    /** The entry of a directory in its parent. */
    method RemoveFromParent(path: Path, ghost parent: bytes)
      requires path != [] && root !in layers && Leaves(edges, layers) && Resolve(edges, root, Front(path)) == Some(parent)
      requires LayerOf(layers, parent) != PARTITION
      modifies this`edges
      ensures edges == old(edges) - {(parent, Last(path))}
    {
      var found := FindNode(Front(path));
      if found.Node? {
        if found.depth < |Front(path)| {
          WayIsOpen(edges, layers, root, Front(path), found.depth);
        }
        assert Front(path)[..|Front(path)|] == Front(path);
        edges := edges - {(found.prefix, Last(path))};
      }
    }

    /** Removes a directory with everything below it, and nothing else. */
    method Remove(path: Path, failIfMissing: bool) returns (r: Outcome)
      requires Wellformed(edges, layers, root)
      modifies this
      ensures Wellformed(edges, layers, root)
      ensures r == Done(true) <==> Accepts(old(version), true) && path != [] && Resolve(old(edges), root, path).Some?
      ensures r == Done(true) ==>
                var gone := Below(old(edges), Live(old(layers), root), Resolve(old(edges), root, path).value);
                && layers == old(layers) - gone && content == Wiped(old(content), gone)
                && forall q :: Resolve(edges, root, q) == Removed(old(edges), root, path, q)
      ensures r != Done(true) ==> edges == old(edges) && layers == old(layers) && content == old(content)
      ensures r == Done(false) ==> !failIfMissing && Resolve(edges, root, path).None?
      ensures r.Delegated? ==> LeadsToPartition(edges, layers, root, path, r.partition, r.rest)
      ensures version == if old(version).Unset? then Version(1, 0) else old(version)
      ensures !Accepts(old(version), true) ==> r == Failed(VersionError)
      ensures Accepts(old(version), true) ==>
                && (path == [] ==> r == Failed(CannotModifyRoot))
                && (forall partition, rest :: LeadsToPartition(old(edges), old(layers), root, path, partition, rest) ==>
                      r == Delegated(partition, rest))
                && (path != [] && Absent(old(edges), old(layers), root, path) ==>
                      r == if failIfMissing then Failed(DirectoryDoesNotExist) else Done(false))
    {
      hide *;
      ghost var e0, l0, c0 := edges, layers, content;
      RootFacts();
      var ok := CheckVersion(true);
      if !ok { return Failed(VersionError); }
      Places(edges, layers, root, path);
      if path == [] {
        LeadsNowhere(edges, layers, root);
        return Failed(CannotModifyRoot);
      }
      var found := FindNode(path);
      if found.Missing? {
        AbsentNone(edges, layers, root, path);
        NotInside(edges, layers, root, path);
        return if failIfMissing then Failed(DirectoryDoesNotExist) else Done(false);
      }
      Located(edges, layers, root, path, found.depth);
      NotAbsent(edges, layers, root, path, found.depth);
      if found.depth < |path| {
        InPartition(edges, layers, root, path, found.depth);
        return Delegated(found.prefix, path[found.depth..]);
      }
      assert path[..|path|] == path;
      ghost var parent := ParentOf(e0, l0, root, path, found.prefix);
      GoneNone(e0, l0, c0);
      RemoveRecursive(found.prefix, e0, l0, c0, {});
      AfterRemoval(e0, l0, c0, edges, layers, content, root, path, parent, found.prefix);
      RemoveFromParent(path, parent);
      return Done(true);
    }

    // ---- Move ----

    /** What stands in the way of a move, if anything does; otherwise the directory and its new parent. */
    method CheckMove(from: Path, to: Path) returns (problem: Option<Outcome>, x: bytes, parent: bytes)
      requires Wellformed(edges, layers, root)
      ensures problem.None? <==> Movable(edges, layers, root, from, to)
      ensures problem.Some? ==> (problem.value.Failed? || problem.value.DelegatedMove?) && Blocks(edges, layers, root, from, to, problem.value)
      ensures problem.None? ==> Resolve(edges, root, from) == Some(x) && CanHang(edges, layers, root, from, to, x, parent)
    {
      hide Wellformed, Resolve, LayerOf, Absent, CanHang, Live, Antichain, LeadsToPartition, SamePartition, Inside;
      RootFacts();
      x, parent := root, root;
      if from == [] { return Some(Failed(CannotMoveRoot)), x, parent; }
      if from <= to { return Some(Failed(CannotMoveIntoSubdirectory)), x, parent; }
      var oldNode := FindNode(from);
      if oldNode.Missing? {
        AbsentNone(edges, layers, root, from);
        return Some(Failed(PathDoesNotExist)), x, parent;
      }
      var newNode := FindNode(to);
      var oldInside := oldNode.depth < |from|;
      if oldInside { InPartition(edges, layers, root, from, oldNode.depth); }
      if newNode.Node? {
        var newInside := newNode.depth < |to|;
        NotAbsent(edges, layers, root, to, newNode.depth);
        BlockedThere(edges, layers, root, from, to, oldNode.depth, newNode.depth);
        if oldInside && newInside && from[..oldNode.depth] == to[..newNode.depth] {
          return Some(DelegatedMove(oldNode.prefix, from[oldNode.depth..], to[newNode.depth..])), x, parent;
        }
        if oldInside || newInside { return Some(Failed(CannotMoveBetweenPartitions)), x, parent; }
        return Some(Failed(DirectoryAlreadyExists)), x, parent;
      }
      BlockedFree(edges, layers, root, from, to, oldNode.depth);
      if oldInside { return Some(Failed(CannotMoveBetweenPartitions)), x, parent; }
      if to == [] {
        // The root is always found, so that an empty destination exists already.
        AbsentNone(edges, layers, root, to);
        assert false;
      }
      var above := FindNode(Front(to));
      if above.Missing? {
        AbsentNone(edges, layers, root, Front(to));
        return Some(Failed(ParentDirectoryDoesNotExist)), x, parent;
      }
      assert from[..|from|] == from;
      MoveStarts(edges, layers, root, from, to, oldNode.prefix, above.prefix, above.depth);
      return None, oldNode.prefix, above.prefix;
    }

    /** Hangs a directory at another path of the same layer. Prefixes, metadata and contents stay. */
    method Move(from: Path, to: Path) returns (r: Outcome)
      requires Wellformed(edges, layers, root)
      modifies this`edges, this`version
      ensures Wellformed(edges, layers, root)
      ensures r.Opened? <==> Accepts(old(version), true) && Movable(old(edges), layers, root, from, to)
      ensures r.Opened? ==> Some(r.prefix) == Resolve(old(edges), root, from) && r.layer == LayerOf(layers, r.prefix)
                            && forall q :: Resolve(edges, root, q) == Relabelled(old(edges), root, from, to, q)
      ensures !r.Opened? ==> edges == old(edges)
      ensures version == if old(version).Unset? then Version(1, 0) else old(version)
      ensures !Accepts(old(version), true) ==> r == Failed(VersionError)
      ensures Accepts(old(version), true) && !r.Opened? ==> Blocks(old(edges), layers, root, from, to, r)
      ensures r.DelegatedMove? || r.Failed? || r.Opened?
    {
      hide *;
      ghost var e0 := edges;
      RootFacts();
      var ok := CheckVersion(true);
      if !ok { return Failed(VersionError); }
      var problem, x, parent := CheckMove(from, to);
      if problem.Some? { return problem.value; }
      ghost var oldParent := MoveMiddle(e0, layers, root, from, to, parent, x);
      edges := edges[(parent, Last(to)) := x];
      RemoveFromParent(from, oldParent);
      return Opened(x, LayerOf(layers, x));
    }
  }

  // ---- What one operation leaves for the next ----

  lemma Writable(version: Version)
    ensures Accepts(version, true) ==> Accepts(version, false)
    ensures Accepts(Version(1, 0), true) && Accepts(Version(1, 0), false)
  {
  }

  /** A path that is gone and had no partition on its way is absent. */
  lemma NowAbsent(was: Edges, l: Layers, edges: Edges, layers: Layers, root: bytes, path: Path)
    requires Leaves(was, l) && Leaves(edges, layers) && Resolve(was, root, path).Some? && Resolve(edges, root, path).None?
    requires forall p :: p in layers ==> p in l && layers[p] == l[p]
    requires forall q :: q <= path && q != path && Resolve(edges, root, q).Some? ==> Resolve(edges, root, q) == Resolve(was, root, q)
    ensures Absent(edges, layers, root, path)
  {
    hide Leaves, Resolve;
    forall q | q <= path && Resolve(edges, root, q).Some?
      ensures LayerOf(layers, Resolve(edges, root, q).value) != PARTITION
    {
      assert |q| == |path| ==> q == path;
      assert q == path[..|q|];
      WayIsOpen(was, l, root, path, |q|);
      var m := Resolve(edges, root, q).value;
      assert LayerOf(layers, m) == LayerOf(l, m) || LayerOf(layers, m) == [];
    }
  }

  /** What was created is what is opened, unless another layer is asked for. */
  method CreateThenOpen(d: DirectoryLayer, path: Path, explicit: Option<bytes>, layer: Option<bytes>, asked: Option<bytes>,
                        offered: seq<bytes>) returns (created: Outcome, found: Outcome)
    requires Wellformed(d.edges, d.layers, d.root)
    modifies d
    ensures created.Opened? ==>
              && created.layer == (if layer.Some? then layer.value else [])
              && found == if asked.None? || asked.value == [] || asked.value == created.layer then created
                           else Failed(IncompatibleLayer)
  {
    hide Wellformed, Resolve, Grew, Absent, Creatable, Refuses, Free, Live, LeadsToPartition, Accepts;
    Writable(d.version);
    var left;
    created, left := d.CreateOrOpen(path, explicit, layer, true, false, offered);
    found, left := d.CreateOrOpen(path, None, asked, false, true, []);
  }

  /** What was removed is not there any more. */
  method RemoveThenOpen(d: DirectoryLayer, path: Path, failIfMissing: bool) returns (removed: Outcome, found: Outcome)
    requires Wellformed(d.edges, d.layers, d.root)
    modifies d
    ensures removed == Done(true) ==> found == Failed(DirectoryDoesNotExist)
  {
    hide Wellformed, Resolve, Grew, Absent, Creatable, Refuses, Free, Live, LeadsToPartition, Accepts, Below, Wiped;
    Writable(d.version);
    ghost var was, l := d.edges, d.layers;
    d.RootFacts();
    removed := d.Remove(path, failIfMissing);
    d.RootFacts();
    if removed == Done(true) { NowAbsent(was, l, d.edges, d.layers, d.root, path); }
    var left;
    found, left := d.CreateOrOpen(path, None, None, false, true, []);
  }

  /** What was moved is opened at its new path, and no more at its old one. */
  method MoveThenOpen(d: DirectoryLayer, from: Path, to: Path) returns (moved: Outcome, there: Outcome, here: Outcome)
    requires Wellformed(d.edges, d.layers, d.root)
    modifies d
    ensures moved.Opened? ==> there == moved && here == Failed(DirectoryDoesNotExist)
  {
    hide Wellformed, Resolve, Grew, Absent, Creatable, Refuses, Free, Live, LeadsToPartition, Accepts, Blocks;
    Writable(d.version);
    ghost var was := d.edges;
    d.RootFacts();
    moved := d.Move(from, to);
    d.RootFacts();
    if moved.Opened? {
      MovedAway(was, d.edges, d.layers, d.root, from, to);
    }
    var left;
    there, left := d.CreateOrOpen(to, None, None, false, true, []);
    here, left := d.CreateOrOpen(from, None, None, false, true, []);
  }

  lemma MovedAway(was: Edges, edges: Edges, layers: Layers, root: bytes, from: Path, to: Path)
    requires Leaves(was, layers) && Leaves(edges, layers) && Movable(was, layers, root, from, to)
    requires forall q :: Resolve(edges, root, q) == Relabelled(was, root, from, to, q)
    ensures Resolve(edges, root, to) == Resolve(was, root, from) && to != []
    ensures Absent(edges, layers, root, from) && from != []
  {
    hide Leaves, Resolve, Relabelled, Absent;
    MovedThere(was, root, from, to);
    assert Resolve(edges, root, to) == Relabelled(was, root, from, to, to);
    assert Resolve(edges, root, from) == Relabelled(was, root, from, to, from);
    AbsentNone(was, layers, root, to);
    NotAbove(was, root, from, to);
    NotMoved(was, root, from, to, from);
    forall q | q <= from && q != from && Resolve(edges, root, q).Some?
      ensures Resolve(edges, root, q) == Resolve(was, root, q)
    {
      NotMoved(was, root, from, to, q);
    }
    NowAbsent(was, layers, edges, layers, root, from);
  }

  lemma MovedThere(edges: Edges, root: bytes, from: Path, to: Path)
    ensures Relabelled(edges, root, from, to, to) == Resolve(edges, root, from)
  {
    assert from + to[|to|..] == from;
    hide Resolve;
  }

  /** What is not there is not on the way to what is. */
  lemma NotAbove(edges: Edges, root: bytes, from: Path, to: Path)
    requires Resolve(edges, root, from).Some? && Resolve(edges, root, to).None?
    ensures !(to <= from)
  {
    hide Resolve;
    if to <= from {
      assert from[..|to|] == to;
      WayResolves(edges, root, from, |to|);
    }
  }

  lemma NotMoved(edges: Edges, root: bytes, from: Path, to: Path, q: Path)
    requires !(to <= from) && q <= from
    ensures Relabelled(edges, root, from, to, q) == if q == from then None else Resolve(edges, root, q)
  {
    hide Resolve;
    PrefixOfPrefix(to, q, from);
  }

  lemma PrefixOfPrefix(a: Path, b: Path, c: Path)
    ensures a <= b && b <= c ==> a <= c
    ensures a <= b && b <= a ==> a == b
  {
  }
}
