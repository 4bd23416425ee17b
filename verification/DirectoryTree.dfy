/** The directory graph: edges from a node and a name to a child, paths through it, and what adding,
    removing and moving an edge does to every path. */
module DirectoryTree {
  import opened Bytes
  import opened Wrappers
  import opened DirectoryPrefixes

  type Path = seq<string>
  type Edges = map<(bytes, string), bytes>

  function Resolve(edges: Edges, from: bytes, path: Path): Option<bytes>
    decreases |path|
  {
    if path == [] then Some(from)
    else if (from, path[0]) in edges then Resolve(edges, edges[(from, path[0])], path[1..])
    else None
  }

  lemma {:induction false} ResolveConcat(edges: Edges, from: bytes, a: Path, b: Path)
    ensures Resolve(edges, from, a + b) ==
            match Resolve(edges, from, a) case None => None case Some(m) => Resolve(edges, m, b)
    decreases |a|
  {
    if a == [] {
      assert a + b == b;
    } else if (from, a[0]) in edges {
      assert (a + b)[1..] == a[1..] + b;
      ResolveConcat(edges, edges[(from, a[0])], a[1..], b);
    }
  }

  function Front(path: Path): Path
    requires path != []
  {
    path[..|path| - 1]
  }

  function Last(path: Path): string
    requires path != []
  {
    path[|path| - 1]
  }

  function Step(edges: Edges, at: Option<bytes>, name: string): Option<bytes> {
    if at.Some? && (at.value, name) in edges then Some(edges[(at.value, name)]) else None
  }

  /** The last step of a path. */
  lemma ResolveLast(edges: Edges, from: bytes, path: Path)
    requires path != []
    ensures Resolve(edges, from, path) == Step(edges, Resolve(edges, from, Front(path)), Last(path))
    ensures path == Front(path) + [Last(path)]
  {
    assert Front(path) + [Last(path)] == path;
    ResolveConcat(edges, from, Front(path), [Last(path)]);
    assert [Last(path)][1..] == [];
  }

  /** Whatever starts at the root and takes the graph's steps is where paths lead. */
  lemma {:induction false} Determined(edges: Edges, root: bytes, leads: Path -> Option<bytes>, path: Path)
    requires leads([]) == Some(root)
    requires forall p :: p != [] ==> leads(p) == Step(edges, leads(Front(p)), Last(p))
    ensures Resolve(edges, root, path) == leads(path)
    decreases |path|
  {
    if path != [] {
      Determined(edges, root, leads, Front(path));
      ResolveLast(edges, root, path);
    }
  }

  lemma Extends(a: Path, b: Path)
    requires b != []
    ensures a <= b <==> a == b || a <= Front(b)
  {
    assert b == Front(b) + [Last(b)];
    assert |a| <= |Front(b)| ==> b[..|a|] == Front(b)[..|a|];
    assert |a| == |b| ==> b[..|a|] == b;
  }

  ghost predicate Under(edges: Edges, from: bytes, p: bytes) {
    exists path :: Resolve(edges, from, path) == Some(p)
  }

  /** Every live node hangs below the root by exactly one edge, the root by none. */
  ghost predicate Tree(edges: Edges, live: set<bytes>, root: bytes) {
    Wired(edges, live, root) && forall p :: p in live ==> Under(edges, root, p)
  }

  ghost predicate Wired(edges: Edges, live: set<bytes>, root: bytes) {
    && root in live
    && (forall e :: e in edges ==> e.0 in live && edges[e] in live && edges[e] != root)
    && (forall e, f :: e in edges && f in edges && edges[e] == edges[f] ==> e == f)
  }

  lemma {:induction false} UniquePath(edges: Edges, live: set<bytes>, root: bytes, a: Path, b: Path)
    requires Tree(edges, live, root)
    requires Resolve(edges, root, a).Some? && Resolve(edges, root, a) == Resolve(edges, root, b)
    ensures a == b
    decreases |a| + |b|
  {
    if a != [] { ResolveLast(edges, root, a); }
    if b != [] { ResolveLast(edges, root, b); }
    if a != [] && b != [] {
      UniquePath(edges, live, root, Front(a), Front(b));
    }
  }

  lemma {:induction false} ResolvesToLive(edges: Edges, live: set<bytes>, root: bytes, from: bytes, path: Path)
    requires Tree(edges, live, root) && from in live && Resolve(edges, from, path).Some?
    ensures Resolve(edges, from, path).value in live
    decreases |path|
  {
    if path != [] { ResolvesToLive(edges, live, root, edges[(from, path[0])], path[1..]); }
  }

  lemma PathTo(edges: Edges, live: set<bytes>, root: bytes, p: bytes) returns (path: Path)
    requires Tree(edges, live, root) && p in live
    ensures Resolve(edges, root, path) == Some(p)
  {
    assert Under(edges, root, p);
    path :| Resolve(edges, root, path) == Some(p);
  }

  /** No path of one step or more leads back to where it started. */
  lemma NoCycle(edges: Edges, live: set<bytes>, root: bytes, p: bytes, path: Path)
    requires Tree(edges, live, root) && p in live && path != []
    ensures Resolve(edges, p, path) != Some(p)
  {
    var a := PathTo(edges, live, root, p);
    ResolveConcat(edges, root, a, path);
    if Resolve(edges, p, path) == Some(p) {
      UniquePath(edges, live, root, a, a + path);
    }
  }

  // ---- Subtrees ----

  /** The nodes at and below a node. */
  ghost function Below(edges: Edges, live: set<bytes>, p: bytes): set<bytes> {
    set q | q in live && Under(edges, p, q)
  }

  lemma BelowOne(edges: Edges, live: set<bytes>, root: bytes, p: bytes, q: bytes)
    requires Tree(edges, live, root) && p in live
    ensures q in Below(edges, live, p) <==>
            q == p || exists e :: e in edges && e.0 == p && q in Below(edges, live, edges[e])
  {
    assert Resolve(edges, p, []) == Some(p);
    if q in Below(edges, live, p) && q != p {
      var path :| Resolve(edges, p, path) == Some(q);
      var e := (p, path[0]);
      assert Resolve(edges, edges[e], path[1..]) == Some(q);
      assert q in Below(edges, live, edges[e]);
    }
    if e :| e in edges && e.0 == p && q in Below(edges, live, edges[e]) {
      var path :| Resolve(edges, edges[e], path) == Some(q);
      assert ([e.1] + path)[1..] == path;
      assert Resolve(edges, p, [e.1] + path) == Some(q);
    }
  }

  lemma ChildBelow(edges: Edges, live: set<bytes>, root: bytes, e: (bytes, string))
    requires Tree(edges, live, root) && e in edges
    ensures Below(edges, live, edges[e]) <= Below(edges, live, e.0) - {e.0}
  {
    forall q | q in Below(edges, live, edges[e])
      ensures q in Below(edges, live, e.0) && q != e.0
    {
      BelowOne(edges, live, root, e.0, q);
      var path :| Resolve(edges, edges[e], path) == Some(q);
      assert ([e.1] + path)[1..] == path;
      NoCycle(edges, live, root, e.0, [e.1] + path);
    }
  }

  lemma SiblingsApart(edges: Edges, live: set<bytes>, root: bytes, e: (bytes, string), f: (bytes, string))
    requires Tree(edges, live, root) && e in edges && f in edges && e.0 == f.0 && e != f
    ensures Below(edges, live, edges[e]) !! Below(edges, live, edges[f])
  {
    var r := PathTo(edges, live, root, e.0);
    forall q | q in Below(edges, live, edges[e]) ensures q !in Below(edges, live, edges[f]) {
      if q in Below(edges, live, edges[f]) {
        var a :| Resolve(edges, edges[e], a) == Some(q);
        var b :| Resolve(edges, edges[f], b) == Some(q);
        ThroughEdge(edges, root, r, e, a);
        ThroughEdge(edges, root, r, f, b);
        UniquePath(edges, live, root, r + ([e.1] + a), r + ([f.1] + b));
      }
    }
  }

  lemma ThroughEdge(edges: Edges, root: bytes, r: Path, e: (bytes, string), a: Path)
    requires Resolve(edges, root, r) == Some(e.0) && e in edges
    ensures Resolve(edges, root, r + ([e.1] + a)) == Resolve(edges, edges[e], a)
    ensures (r + ([e.1] + a))[|r|] == e.1
  {
    assert ([e.1] + a)[1..] == a;
    ResolveConcat(edges, root, r, [e.1] + a);
  }

  /** A node is below another exactly when its path extends the other's. */
  lemma BelowIsExtension(edges: Edges, live: set<bytes>, root: bytes, a: Path, b: Path)
    requires Tree(edges, live, root)
    requires Resolve(edges, root, a).Some? && Resolve(edges, root, b).Some?
    ensures Resolve(edges, root, b).value in Below(edges, live, Resolve(edges, root, a).value) <==> a <= b
  {
    var p, q := Resolve(edges, root, a).value, Resolve(edges, root, b).value;
    ResolvesToLive(edges, live, root, root, b);
    if a <= b {
      assert a + b[|a|..] == b;
      ResolveConcat(edges, root, a, b[|a|..]);
    }
    if q in Below(edges, live, p) {
      var r :| Resolve(edges, p, r) == Some(q);
      ResolveConcat(edges, root, a, r);
      UniquePath(edges, live, root, a + r, b);
    }
  }

  // ---- Adding a leaf ----

  /** Where paths lead once a leaf hangs at a path. */
  function Added(edges: Edges, root: bytes, to: Path, x: bytes, path: Path): Option<bytes> {
    if path == to then Some(x) else Resolve(edges, root, path)
  }

  ghost predicate CanAdd(edges: Edges, live: set<bytes>, root: bytes, to: Path, parent: bytes, x: bytes) {
    && Tree(edges, live, root) && to != [] && Resolve(edges, root, Front(to)) == Some(parent)
    && (parent, Last(to)) !in edges && x !in live
  }

  lemma NoEdgeFrom(edges: Edges, live: set<bytes>, root: bytes, x: bytes)
    requires Tree(edges, live, root) && x !in live
    ensures forall name :: (x, name) !in edges
  {
    assert forall name :: (x, name) in edges ==> (x, name).0 in live;
  }

  lemma AddedStep(edges: Edges, live: set<bytes>, root: bytes, to: Path, parent: bytes, x: bytes, path: Path)
    requires CanAdd(edges, live, root, to, parent, x) && path != []
    ensures Added(edges, root, to, x, path) ==
            Step(edges[(parent, Last(to)) := x], Added(edges, root, to, x, Front(path)), Last(path))
  {
    NoEdgeFrom(edges, live, root, x);
    assert parent in live by { ResolvesToLive(edges, live, root, root, Front(to)); }
    hide Tree, Under, Resolve;
    ResolveLast(edges, root, path);
    ResolveLast(edges, root, to);
    var at := Resolve(edges, root, Front(path));
    ResolvesToLive(edges, live, root, root, Front(to));
    if at == Some(parent) { UniquePath(edges, live, root, Front(path), Front(to)); }
    if at.Some? { ResolvesToLive(edges, live, root, root, Front(path)); }
  }

  /** A fresh leaf under a node: one new path, every other path as it was, still a tree. */
  lemma AddLeaf(edges: Edges, live: set<bytes>, root: bytes, to: Path, parent: bytes, x: bytes)
    requires CanAdd(edges, live, root, to, parent, x)
    ensures var after := edges[(parent, Last(to)) := x];
            && Tree(after, live + {x}, root)
            && forall path :: Resolve(after, root, path) == Added(edges, root, to, x, path)
  {
    var after := edges[(parent, Last(to)) := x];
    AddedPaths(edges, live, root, to, parent, x);
    ResolveLast(edges, root, to);
    ResolvesToLive(edges, live, root, root, Front(to));
    assert Wired(after, live + {x}, root);
    hide Resolve, Wired;
    forall p | p in live + {x} ensures Under(after, root, p) {
      var path := to;
      if p in live { path := PathTo(edges, live, root, p); }
      assert Resolve(after, root, path) == Added(edges, root, to, x, path);
    }
  }

  lemma AddedPaths(edges: Edges, live: set<bytes>, root: bytes, to: Path, parent: bytes, x: bytes)
    requires CanAdd(edges, live, root, to, parent, x)
    ensures forall path :: Resolve(edges[(parent, Last(to)) := x], root, path) == Added(edges, root, to, x, path)
  {
    var after := edges[(parent, Last(to)) := x];
    var leads := path => Added(edges, root, to, x, path);
    assert leads([]) == Some(root);
    hide Tree, Resolve, Step;
    forall p: Path | p != [] ensures leads(p) == Step(after, leads(Front(p)), Last(p)) {
      AddedStep(edges, live, root, to, parent, x, p);
    }
    forall path: Path ensures Resolve(after, root, path) == Added(edges, root, to, x, path) {
      Determined(after, root, leads, path);
    }
  }

  // ---- Removing a subtree ----

  /** The edges that do not start at a removed node. */
  function Cut(edges: Edges, gone: set<bytes>): Edges {
    map e | e in edges && e.0 !in gone :: edges[e]
  }

  /** Where paths lead once what is at and below a path is gone. */
  function Removed(edges: Edges, root: bytes, at: Path, path: Path): Option<bytes> {
    if at <= path then None else Resolve(edges, root, path)
  }

  ghost predicate CanRemove(edges: Edges, live: set<bytes>, root: bytes, at: Path, parent: bytes, x: bytes) {
    && Tree(edges, live, root) && at != [] && Resolve(edges, root, Front(at)) == Some(parent)
    && (parent, Last(at)) in edges && edges[(parent, Last(at))] == x
  }

  ghost function Pruned(edges: Edges, live: set<bytes>, at: Path, parent: bytes, x: bytes): Edges
    requires at != []
  {
    Cut(edges, Below(edges, live, x)) - {(parent, Last(at))}
  }

  lemma RemovedStep(edges: Edges, live: set<bytes>, root: bytes, at: Path, parent: bytes, x: bytes, path: Path)
    requires CanRemove(edges, live, root, at, parent, x) && path != []
    ensures Removed(edges, root, at, path) ==
            Step(Pruned(edges, live, at, parent, x), Removed(edges, root, at, Front(path)), Last(path))
  {
    ResolveLast(edges, root, path);
    ResolveLast(edges, root, at);
    Extends(at, path);
    var m := Resolve(edges, root, Front(path));
    if m.Some? {
      BelowIsExtension(edges, live, root, at, Front(path));
      if m.value == parent { UniquePath(edges, live, root, Front(path), Front(at)); }
    }
  }

  /** Cutting a subtree off removes the paths that lead into it and no other. */
  lemma RemoveSubtree(edges: Edges, live: set<bytes>, root: bytes, at: Path, parent: bytes, x: bytes)
    requires CanRemove(edges, live, root, at, parent, x)
    ensures var after := Pruned(edges, live, at, parent, x);
            && Tree(after, live - Below(edges, live, x), root)
            && forall path :: Resolve(after, root, path) == Removed(edges, root, at, path)
  {
    var gone, after := Below(edges, live, x), Pruned(edges, live, at, parent, x);
    RemovedPaths(edges, live, root, at, parent, x);
    ResolveLast(edges, root, at);
    BelowIsExtension(edges, live, root, at, []);
    forall p | p in live - gone ensures Under(after, root, p) {
      var path := PathTo(edges, live, root, p);
      BelowIsExtension(edges, live, root, at, path);
      assert Resolve(after, root, path) == Some(p);
    }
    forall e | e in after ensures edges[e] !in gone {
      EdgeKept(edges, live, root, at, parent, x, e);
    }
  }

  lemma RemovedPaths(edges: Edges, live: set<bytes>, root: bytes, at: Path, parent: bytes, x: bytes)
    requires CanRemove(edges, live, root, at, parent, x)
    ensures forall path :: Resolve(Pruned(edges, live, at, parent, x), root, path) == Removed(edges, root, at, path)
  {
    var after := Pruned(edges, live, at, parent, x);
    var leads := path => Removed(edges, root, at, path);
    forall p: Path | p != [] ensures leads(p) == Step(after, leads(Front(p)), Last(p)) {
      RemovedStep(edges, live, root, at, parent, x, p);
    }
    forall path: Path ensures Resolve(after, root, path) == Removed(edges, root, at, path) {
      Determined(after, root, leads, path);
    }
  }

  lemma EdgeKept(edges: Edges, live: set<bytes>, root: bytes, at: Path, parent: bytes, x: bytes, e: (bytes, string))
    requires CanRemove(edges, live, root, at, parent, x)
    requires e in edges && e.0 !in Below(edges, live, x) && e != (parent, Last(at))
    ensures edges[e] !in Below(edges, live, x)
  {
    var a := PathTo(edges, live, root, e.0);
    var path := a + [e.1];
    ResolveLast(edges, root, path);
    ResolveLast(edges, root, at);
    assert Front(path) == a;
    Extends(at, path);
    BelowIsExtension(edges, live, root, at, a);
    BelowIsExtension(edges, live, root, at, path);
  }

  // ---- Moving a subtree ----

  /** Where paths lead once a subtree hangs at another path. */
  function Relabelled(edges: Edges, root: bytes, from: Path, to: Path, path: Path): Option<bytes> {
    if to <= path then Resolve(edges, root, from + path[|to|..])
    else if from <= path then None
    else Resolve(edges, root, path)
  }

  /** A directory and a place to move it to: the place is free and not inside the directory. */
  ghost predicate CanMove(edges: Edges, live: set<bytes>, root: bytes, from: Path, to: Path, oldParent: bytes,
                          parent: bytes) {
    && Tree(edges, live, root) && from != [] && to != [] && !(from <= to)
    && Resolve(edges, root, Front(from)) == Some(oldParent)
    && Resolve(edges, root, Front(to)) == Some(parent)
    && (oldParent, Last(from)) in edges && (parent, Last(to)) !in edges
  }

  function Rewired(edges: Edges, from: Path, to: Path, oldParent: bytes, parent: bytes): Edges
    requires from != [] && to != [] && (oldParent, Last(from)) in edges
  {
    edges[(parent, Last(to)) := edges[(oldParent, Last(from))]] - {(oldParent, Last(from))}
  }

  lemma MovedStep(edges: Edges, live: set<bytes>, root: bytes, from: Path, to: Path, oldParent: bytes, parent: bytes,
                  path: Path)
    requires CanMove(edges, live, root, from, to, oldParent, parent) && path != []
    ensures Relabelled(edges, root, from, to, path) ==
            Step(Rewired(edges, from, to, oldParent, parent), Relabelled(edges, root, from, to, Front(path)), Last(path))
  {
    Extends(to, path);
    Extends(from, path);
    if to <= Front(path) {
      MovedInside(edges, live, root, from, to, oldParent, parent, path);
    } else if !(from <= Front(path)) {
      MovedOutside(edges, live, root, from, to, oldParent, parent, path);
    }
  }

  /** A further step below the destination is the same step below the source. */
  lemma MovedInside(edges: Edges, live: set<bytes>, root: bytes, from: Path, to: Path, oldParent: bytes,
                    parent: bytes, path: Path)
    requires CanMove(edges, live, root, from, to, oldParent, parent) && path != [] && to <= Front(path) && to <= path
    ensures Resolve(edges, root, from + path[|to|..]) ==
            Step(Rewired(edges, from, to, oldParent, parent), Resolve(edges, root, from + Front(path)[|to|..]), Last(path))
  {
    hide Tree, Under, Resolve;
    var before := from + Front(path)[|to|..];
    assert from + path[|to|..] == before + [Last(path)];
    assert Front(from + path[|to|..]) == before;
    ResolveLast(edges, root, from + path[|to|..]);
    var m := Resolve(edges, root, before);
    if m == Some(oldParent) { UniquePath(edges, live, root, before, Front(from)); }
    if m == Some(parent) { InsideItself(edges, live, root, from, to, before); }
  }

  lemma InsideItself(edges: Edges, live: set<bytes>, root: bytes, from: Path, to: Path, before: Path)
    requires Tree(edges, live, root) && to != [] && from <= before && !(from <= to)
    requires Resolve(edges, root, before).Some?
    ensures Resolve(edges, root, before) != Resolve(edges, root, Front(to))
  {
    Extends(from, to);
    if Resolve(edges, root, before) == Resolve(edges, root, Front(to)) {
      UniquePath(edges, live, root, before, Front(to));
    }
  }

  /** A further step elsewhere is as it was, but for the two edges that changed. */
  lemma MovedOutside(edges: Edges, live: set<bytes>, root: bytes, from: Path, to: Path, oldParent: bytes,
                     parent: bytes, path: Path)
    requires CanMove(edges, live, root, from, to, oldParent, parent) && path != []
    requires !(to <= Front(path)) && !(from <= Front(path))
    ensures (if path == to then Resolve(edges, root, from) else if path == from then None else Resolve(edges, root, path)) ==
            Step(Rewired(edges, from, to, oldParent, parent), Resolve(edges, root, Front(path)), Last(path))
    ensures path == to ==> from + path[|to|..] == from
  {
    hide Tree, Resolve, Under;
    ResolveLast(edges, root, path);
    ResolveLast(edges, root, from);
    ResolveLast(edges, root, to);
    var m := Resolve(edges, root, Front(path));
    if m == Some(oldParent) { UniquePath(edges, live, root, Front(path), Front(from)); }
    if m == Some(parent) { UniquePath(edges, live, root, Front(path), Front(to)); }
  }

  lemma MovedPaths(edges: Edges, live: set<bytes>, root: bytes, from: Path, to: Path, oldParent: bytes, parent: bytes)
    requires CanMove(edges, live, root, from, to, oldParent, parent)
    ensures forall path :: Resolve(Rewired(edges, from, to, oldParent, parent), root, path)
                           == Relabelled(edges, root, from, to, path)
  {
    var after := Rewired(edges, from, to, oldParent, parent);
    var leads := path => Relabelled(edges, root, from, to, path);
    forall p: Path | p != [] ensures leads(p) == Step(after, leads(Front(p)), Last(p)) {
      MovedStep(edges, live, root, from, to, oldParent, parent, p);
    }
    forall path: Path ensures Resolve(after, root, path) == Relabelled(edges, root, from, to, path) {
      Determined(after, root, leads, path);
    }
  }

  /** Moving relabels the paths below the source and keeps the tree. */
  lemma MoveSubtree(edges: Edges, live: set<bytes>, root: bytes, from: Path, to: Path, oldParent: bytes, parent: bytes)
    requires CanMove(edges, live, root, from, to, oldParent, parent)
    ensures var after := Rewired(edges, from, to, oldParent, parent);
            && Tree(after, live, root)
            && forall path :: Resolve(after, root, path) == Relabelled(edges, root, from, to, path)
  {
    var after := Rewired(edges, from, to, oldParent, parent);
    MovedPaths(edges, live, root, from, to, oldParent, parent);
    RewiredWired(edges, live, root, from, to, oldParent, parent);
    hide Resolve, Wired, Under, Rewired, Relabelled;
    forall p | p in live ensures Under(after, root, p) {
      StillReached(edges, live, root, from, to, oldParent, parent, p);
    }
  }

  lemma RewiredWired(edges: Edges, live: set<bytes>, root: bytes, from: Path, to: Path, oldParent: bytes, parent: bytes)
    requires CanMove(edges, live, root, from, to, oldParent, parent)
    ensures Wired(Rewired(edges, from, to, oldParent, parent), live, root)
  {
    ResolvesToLive(edges, live, root, root, Front(to));
    hide Resolve, Under;
  }

  lemma StillReached(edges: Edges, live: set<bytes>, root: bytes, from: Path, to: Path, oldParent: bytes,
                     parent: bytes, p: bytes)
    requires CanMove(edges, live, root, from, to, oldParent, parent) && p in live
    requires forall path :: Resolve(Rewired(edges, from, to, oldParent, parent), root, path)
                            == Relabelled(edges, root, from, to, path)
    ensures Under(Rewired(edges, from, to, oldParent, parent), root, p)
  {
    var after := Rewired(edges, from, to, oldParent, parent);
    var path := PathTo(edges, live, root, p);
    NotBelowFree(edges, root, to, path);
    hide Tree, Resolve, CanMove, Rewired, Step;
    var moved := if from <= path then to + path[|from|..] else path;
    if from <= path { MovedBack(from, to, path); }
    assert Relabelled(edges, root, from, to, moved) == Some(p);
    assert Resolve(after, root, moved) == Some(p);
  }

  lemma MovedBack(from: Path, to: Path, path: Path)
    requires from <= path
    ensures var moved := to + path[|from|..]; to <= moved && from + moved[|to|..] == path
  {
    var moved := to + path[|from|..];
    assert moved[|to|..] == path[|from|..];
  }

  /** Nothing resolves below a path that does not resolve. */
  lemma NotBelowFree(edges: Edges, root: bytes, to: Path, path: Path)
    requires to != [] && Resolve(edges, root, path).Some?
    requires Step(edges, Resolve(edges, root, Front(to)), Last(to)).None?
    ensures !(to <= path)
  {
    ResolveLast(edges, root, to);
    if to <= path {
      assert to + path[|to|..] == path;
      ResolveConcat(edges, root, to, path[|to|..]);
    }
  }
}
