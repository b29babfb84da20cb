/** The translation tree (crates/i18n/src/translations.rs) and the bulk insertion of scanned keys
    into it (crates/i18n-scan/src/key.rs). */
module Translations {
  import opened Text
  import Sprintf

  type Message = Sprintf.Message

  type Path = seq<string>

  datatype Metadata = Metadata(contextLocations: set<string>, description: Option<string>)

  datatype Tree = Tree(inner: map<string, Node>)

  datatype Node = Node(metadata: Option<Metadata>, value: Value)

  datatype Value = Branch(tree: Tree) | Leaf(message: Message)

  const EMPTY_NODE := Node(None, Branch(Tree(map[])))

  function Root(t: Tree): Node { Node(None, Branch(t)) }

  // ---------------------------------------------------------------- lookups

  /** The node reached from `node` by following `path`; a leaf has nothing below it. */
  function Walk(node: Node, path: Path): Option<Node> {
    if path == [] then Some(node)
    else
      match node.value
      case Leaf(_) => None
      case Branch(t) => if path[0] in t.inner then Walk(t.inner[path[0]], path[1..]) else None
  }

  /** `walk_path`: the empty path names nothing. */
  function WalkPath(t: Tree, path: Path): Option<Node> {
    if path == [] then None else Walk(Root(t), path)
  }

  function AsMessage(n: Option<Node>): Option<Message> {
    if n.Some? && n.value.value.Leaf? then Some(n.value.value.message) else None
  }

  function MessageAt(t: Tree, path: Path): Option<Message> { AsMessage(WalkPath(t, path)) }

  /** `message`: keys are dotted paths. */
  function MessageFor(t: Tree, key: string): Option<Message> { MessageAt(t, Split(key, '.')) }

  /** `pluralize`: the message itself, or the variant of the category, or the one of "other". */
  function Pluralize(t: Tree, path: Path, category: string): Option<Message> {
    match WalkPath(t, path)
    case None => None
    case Some(Node(_, Leaf(m))) => Some(m)
    case Some(Node(_, Branch(sub))) =>
      if category in sub.inner then AsMessage(Some(sub.inner[category]))
      else if "other" in sub.inner then AsMessage(Some(sub.inner["other"]))
      else None
  }

  lemma {:induction false} WalkAppend(node: Node, p: Path, q: Path)
    ensures Walk(node, p + q) == if Walk(node, p).Some? then Walk(Walk(node, p).value, q) else None
  {
    if p == [] {
      assert p + q == q;
    } else {
      assert (p + q)[1..] == p[1..] + q;
      if node.value.Branch? && p[0] in node.value.tree.inner {
        WalkAppend(node.value.tree.inner[p[0]], p[1..], q);
      }
    }
  }

  /** Pluralization in terms of plain lookups: the fallback to "other" is taken exactly when the
      category has no node, even if that node is not a message. */
  lemma PluralizeIsLookup(t: Tree, path: Path, category: string)
    requires path != []
    ensures Pluralize(t, path, category)
         == if MessageAt(t, path).Some? then MessageAt(t, path)
            else if WalkPath(t, path + [category]).Some? then MessageAt(t, path + [category])
            else MessageAt(t, path + ["other"])
  {
    WalkAppend(Root(t), path, [category]);
    WalkAppend(Root(t), path, ["other"]);
    if Walk(Root(t), path).Some? {
      var n := Walk(Root(t), path).value;
      if n.value.Branch? {
        var inner := n.value.tree.inner;
        assert forall c :: c in inner ==> Walk(inner[c], [c][1..]) == Some(inner[c]);
      }
    }
  }

  // ---------------------------------------------------------------- set_if_not_defined

  datatype Outcome = Panics | Sets(node: Node, replaced: bool)

  function AddLocation(m: Option<Metadata>, location: Option<string>): Option<Metadata> {
    match location
    case None => m
    case Some(l) =>
      var base := if m.Some? then m.value else Metadata({}, None);
      Some(base.(contextLocations := base.contextLocations + {l}))
  }

  function Child(t: Tree, key: string): Node {
    if key in t.inner then t.inner[key] else EMPTY_NODE
  }

  /** What setting does at and below a node. */
  function SetIn(node: Node, path: Path, value: Message, location: Option<string>): Outcome
    decreases path
  {
    if path == [] then
      match node.value
      case Branch(t) =>
        if t.inner == map[] then Sets(Node(AddLocation(node.metadata, location), Leaf(value)), true) else Panics
      case Leaf(_) => Sets(node.(metadata := AddLocation(node.metadata, location)), false)
    else
      match node.value
      case Leaf(_) => Panics
      case Branch(t) =>
        match SetIn(Child(t, path[0]), path[1..], value, location)
        case Panics => Panics
        case Sets(child, replaced) => Sets(node.(value := Branch(Tree(t.inner[path[0] := child]))), replaced)
  }

  /** The whole operation: `None` is a panic. Setting the root itself always panics. */
  function SetIfNotDefined(t: Tree, path: Path, value: Message, location: Option<string>): Option<(Tree, bool)> {
    match SetIn(Root(t), path, value, location)
    case Panics => None
    case Sets(node, replaced) => if node.value.Branch? then Some((node.value.tree, replaced)) else None
  }

  /** The exact precondition a caller can check: the path is empty, runs through a message, or
      names a subtree that is not empty. */
  ghost predicate Conflicts(t: Tree, path: Path) {
    || path == []
    || (exists k :: 0 < k < |path| && MessageAt(t, path[..k]).Some?)
    || NonEmptySubtree(WalkPath(t, path))
  }

  predicate NonEmptySubtree(n: Option<Node>) {
    n.Some? && n.value.value.Branch? && n.value.value.tree.inner != map[]
  }

  lemma {:induction false} SetInPanicsIff(node: Node, path: Path, value: Message, location: Option<string>)
    decreases path
    ensures SetIn(node, path, value, location).Panics?
       <==> (exists k :: 0 <= k < |path| && AsMessage(Walk(node, path[..k])).Some?) || NonEmptySubtree(Walk(node, path))
  {
    if path != [] {
      assert path[..0] == [];
      match node.value {
        case Leaf(_) => assert AsMessage(Walk(node, path[..0])).Some?;
        case Branch(t) =>
          var child := Child(t, path[0]);
          SetInPanicsIff(child, path[1..], value, location);
          forall k | 0 < k <= |path| ensures path[..k][0] == path[0] && path[..k][1..] == path[1..][..k - 1] {
          }
          if path[0] !in t.inner {
            EmptyHasNothing(path[1..]);
          }
          if k :| 0 <= k < |path[1..]| && AsMessage(Walk(child, path[1..][..k])).Some? {
            assert AsMessage(Walk(node, path[..k + 1])).Some?;
          }
          if k :| 0 <= k < |path| && AsMessage(Walk(node, path[..k])).Some? {
            assert AsMessage(Walk(child, path[1..][..k - 1])).Some?;
          }
          assert path[..|path|] == path;
      }
    }
  }

  lemma EmptyHasNothing(path: Path)
    ensures forall k :: 0 <= k <= |path| ==> AsMessage(Walk(EMPTY_NODE, path[..k])).None?
    ensures !NonEmptySubtree(Walk(EMPTY_NODE, path))
  {
  }

  /** `set_if_not_defined` panics exactly on conflicts. */
  lemma SetPanicsIff(t: Tree, path: Path, value: Message, location: Option<string>)
    ensures SetIfNotDefined(t, path, value, location).None? <==> Conflicts(t, path)
  {
    SetInPanicsIff(Root(t), path, value, location);
    if path != [] {
      assert path[..0] == [] && AsMessage(Walk(Root(t), path[..0])).None?;
      forall k | 0 < k < |path| ensures MessageAt(t, path[..k]) == AsMessage(Walk(Root(t), path[..k])) {
      }
    }
  }

  /** Every node after a set, by where it lies relative to the path: on the way there are only
      branches, at the path is the message, and all the rest is untouched. */
  lemma {:induction false} WalkAfterSet(node: Node, path: Path, value: Message, location: Option<string>, q: Path)
    requires SetIn(node, path, value, location).Sets?
    decreases path
    ensures SetIn(node, path, value, location).replaced <==> AsMessage(Walk(node, path)).None?
    ensures var Sets(node', replaced) := SetIn(node, path, value, location);
      && (q < path ==> NonEmptySubtree(Walk(node', q)) && Walk(node', q).value.metadata == MetadataOf(Walk(node, q)))
      && (q == path ==> AsMessage(Walk(node', q)) == if replaced then Some(value) else AsMessage(Walk(node, q)))
      && (q == path ==> MetadataOf(Walk(node', q)) == AddLocation(MetadataOf(Walk(node, q)), location))
      && (!(q <= path) ==> Walk(node', q) == Walk(node, q))
  {
    if path != [] {
      var t := node.value.tree;
      var child := Child(t, path[0]);
      WalkAfterSet(child, path[1..], value, location, if q == [] then [] else q[1..]);
      assert path[0] in SetIn(node, path, value, location).node.value.tree.inner;
      if q != [] {
        assert q <= path <==> q[0] == path[0] && q[1..] <= path[1..];
        assert q == [q[0]] + q[1..] && path == [path[0]] + path[1..];
        assert path[0] !in t.inner && q[1..] != [] ==> Walk(EMPTY_NODE, q[1..]) == None;
      }
    }
  }

  function LocationsIn(n: Option<Node>): set<string> {
    if n.Some? && n.value.metadata.Some? then n.value.metadata.value.contextLocations else {}
  }

  function DescriptionIn(n: Option<Node>): Option<string> {
    if n.Some? && n.value.metadata.Some? then n.value.metadata.value.description else None
  }

  function MetadataOf(n: Option<Node>): Option<Metadata> {
    if n.Some? then n.value.metadata else None
  }

  /** Setting a path defines that message if it was missing and leaves every other lookup alone. */
  lemma SetFrame(t: Tree, path: Path, value: Message, location: Option<string>, q: Path)
    requires SetIfNotDefined(t, path, value, location).Some?
    ensures var (t', replaced) := SetIfNotDefined(t, path, value, location).value;
      && replaced == MessageAt(t, path).None?
      && MessageAt(t', q) == (if q == path && replaced then Some(value) else MessageAt(t, q))
      && MetadataOf(WalkPath(t', q)) == (if q == path then AddLocation(MetadataOf(WalkPath(t, q)), location)
                                         else MetadataOf(WalkPath(t, q)))
      && LocationsIn(WalkPath(t', q))
           == LocationsIn(WalkPath(t, q)) + (if q == path && location.Some? then {location.value} else {})
      && DescriptionIn(WalkPath(t', q)) == DescriptionIn(WalkPath(t, q))
  {
    WalkAfterSet(Root(t), path, value, location, q);
    SetPanicsIff(t, path, value, location);
    var (t', _) := SetIfNotDefined(t, path, value, location).value;
    assert SetIn(Root(t), path, value, location).node == Root(t');
    if q < path && q != [] {
      assert path[..|q|] == q;
    }
  }

  /** After a successful set of `path`, exactly the old conflicts and the proper prefixes and
      extensions of `path` conflict. */
  lemma ConflictsAfterSet(t: Tree, path: Path, value: Message, location: Option<string>, q: Path)
    requires SetIfNotDefined(t, path, value, location).Some? && q != []
    ensures Conflicts(SetIfNotDefined(t, path, value, location).value.0, q)
       <==> Conflicts(t, q) || q < path || path < q
  {
    var (t', _) := SetIfNotDefined(t, path, value, location).value;
    SetPanicsIff(t, path, value, location);
    WalkAfterSet(Root(t), path, value, location, q);
    assert SetIn(Root(t), path, value, location).node == Root(t');
    forall k | 0 < k < |q|
      ensures MessageAt(t', q[..k]).Some? <==> MessageAt(t, q[..k]).Some? || q[..k] == path
    {
      SetFrame(t, path, value, location, q[..k]);
    }
    if path < q {
      assert MessageAt(t', q[..|path|]).Some?;
    } else if q == path || !(q < path) {
      assert NonEmptySubtree(WalkPath(t', q)) <==> NonEmptySubtree(WalkPath(t, q));
      assert forall k :: 0 < k < |q| ==> q[..k] != path;
    }
  }

  // ---------------------------------------------------------------- the set of defined messages

  function LeavesOf(n: Node): set<Path> {
    match n.value
    case Leaf(_) => {[]}
    case Branch(t) => set k, p | k in t.inner && p in LeavesOf(t.inner[k]) :: [k] + p
  }

  function Leaves(t: Tree): set<Path> { LeavesOf(Root(t)) }

  lemma {:induction false} LeavesOfAreMessages(n: Node, p: Path)
    ensures p in LeavesOf(n) <==> AsMessage(Walk(n, p)).Some?
    decreases p
  {
    match n.value
    case Leaf(_) =>
    case Branch(t) =>
      if p != [] {
        assert p == [p[0]] + p[1..];
        if p[0] in t.inner {
          LeavesOfAreMessages(t.inner[p[0]], p[1..]);
        }
        if p in LeavesOf(n) {
          var k, q :| k in t.inner && q in LeavesOf(t.inner[k]) && p == [k] + q;
          assert k == p[0] && q == p[1..];
        }
      }
  }

  lemma LeavesAreMessages(t: Tree, p: Path)
    ensures p in Leaves(t) <==> MessageAt(t, p).Some?
  {
    LeavesOfAreMessages(Root(t), p);
  }

  lemma LeavesAfterSet(t: Tree, path: Path, value: Message, location: Option<string>)
    requires SetIfNotDefined(t, path, value, location).Some?
    ensures var (t', replaced) := SetIfNotDefined(t, path, value, location).value;
      Leaves(t') == Leaves(t) + {path} && |Leaves(t')| == |Leaves(t)| + if replaced then 1 else 0
  {
    hide SetIfNotDefined, Leaves, WalkPath, AsMessage;
    var (t', replaced) := SetIfNotDefined(t, path, value, location).value;
    forall q ensures q in Leaves(t') <==> q in Leaves(t) || q == path {
      LeavesAreMessages(t, q);
      LeavesAreMessages(t', q);
      SetFrame(t, path, value, location, q);
    }
    LeavesAreMessages(t, path);
    SetFrame(t, path, value, location, path);
    OneLeafMore(Leaves(t), Leaves(t'), path, replaced);
  }

  lemma OneLeafMore(a: set<Path>, b: set<Path>, p: Path, fresh_: bool)
    requires (forall q :: q in b <==> q in a || q == p) && (fresh_ <==> p !in a)
    ensures b == a + {p} && |b| == |a| + if fresh_ then 1 else 0
  {
    assert b == if fresh_ then a + {p} else a;
  }

  // ---------------------------------------------------------------- the in-place operation

  /** A node on the way down, with the key that was followed. */
  datatype Frame = Frame(parent: Node, key: string)

  ghost predicate Frames(frames: seq<Frame>) {
    forall i :: 0 <= i < |frames| ==> frames[i].parent.value.Branch?
  }

  function PutBack(f: Frame, child: Node): Node
    requires f.parent.value.Branch?
  {
    f.parent.(value := Branch(Tree(f.parent.value.tree.inner[f.key := child])))
  }

  function Rebuild(frames: seq<Frame>, node: Node): Node
    requires Frames(frames)
  {
    if frames == [] then node
    else Rebuild(frames[..|frames| - 1], PutBack(frames[|frames| - 1], node))
  }

  function Lift(frames: seq<Frame>, o: Outcome): Outcome
    requires Frames(frames)
  {
    if o.Panics? then Panics else Sets(Rebuild(frames, o.node), o.replaced)
  }

  class TranslationTree {
    var tree: Tree

    constructor (t: Tree)
      ensures tree == t
    {
      tree := t;
    }

    /** `set_if_not_defined`: the root is moved out, walked and moved back. A panic, reported as
        `None`, leaves the moved-out root empty. */
    method Set(path: Path, value: Message, location: Option<string>) returns (r: Option<bool>)
      modifies this
      ensures r.Some? <==> !Conflicts(old(tree), path)
      ensures r.Some? ==> SetIfNotDefined(old(tree), path, value, location) == Some((tree, r.value))
      ensures r.None? ==> tree == Tree(map[])
    {
      SetPanicsIff(tree, path, value, location);
      var node := Root(tree);
      ghost var outcome := SetIn(node, path, value, location);
      tree := Tree(map[]);
      var frames: seq<Frame> := [];
      var i := 0;
      while i < |path|
        invariant 0 <= i <= |path|
        invariant |frames| == i && Frames(frames)
        invariant outcome == Lift(frames, SetIn(node, path[i..], value, location))
      {
        if node.value.Leaf? {
          return None;
        }
        var f := Frame(node, path[i]);
        var child := Child(node.value.tree, path[i]);
        assert path[i..][1..] == path[i + 1..];
        assert (frames + [f])[..|frames|] == frames;
        frames, node := frames + [f], child;
        i := i + 1;
      }
      if node.value.Branch? && node.value.tree.inner != map[] {
        return None;
      }
      var replaced := node.value.Branch?;
      if replaced {
        node := node.(value := Leaf(value));
      }
      node := node.(metadata := AddLocation(node.metadata, location));
      while frames != []
        invariant Frames(frames)
        invariant outcome == Sets(Rebuild(frames, node), replaced)
        decreases |frames|
      {
        node := PutBack(frames[|frames| - 1], node);
        frames := frames[..|frames| - 1];
      }
      if node.value.Leaf? {
        return None;
      }
      tree := node.value.tree;
      return Some(replaced);
    }
  }
}
