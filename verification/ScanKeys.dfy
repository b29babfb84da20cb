/** The keys collected by the template scanner and their insertion into a translation tree
    (crates/i18n-scan/src/key.rs). */
module ScanKeys {
  import opened Text
  import opened Translations
  import Sprintf

  /** What is inserted for a missing key. */
  const EMPTY_MESSAGE: Message := Sprintf.FromLiteral("")

  datatype Kind = MessageKind | PluralKind

  datatype Span = Span(startLine: nat, startCol: nat, endLine: nat, endCol: nat)

  datatype Location = Location(file: string, span: Span)

  datatype Key = Key(kind: Kind, name: string, location: Option<Location>)

  function Render(l: Location): string {
    var start := l.file + ":" + Decimal(l.span.startLine) + ":" + Decimal(l.span.startCol) + "-";
    if l.span.startLine == l.span.endLine then start + Decimal(l.span.endCol)
    else start + Decimal(l.span.endLine) + ":" + Decimal(l.span.endCol)
  }

  function RenderOptional(l: Option<Location>): Option<string> {
    if l.Some? then Some(Render(l.value)) else None
  }

  /** Where a key belongs in the tree: a plural gets its "other" variant. */
  function PathOf(key: Key): (path: Path)
    ensures path != []
  {
    Split(key.name, '.') + if key.kind == PluralKind then ["other"] else []
  }

  function PathsOf(keys: seq<Key>): set<Path> {
    set i | 0 <= i < |keys| :: PathOf(keys[i])
  }

  /** Inserting keys one after the other; `None` is a panic. */
  function AddAll(t: Tree, keys: seq<Key>): Option<(Tree, nat)> {
    if keys == [] then Some((t, 0))
    else
      match AddAll(t, keys[..|keys| - 1])
      case None => None
      case Some((t', count)) =>
        var key := keys[|keys| - 1];
        match SetIfNotDefined(t', PathOf(key), EMPTY_MESSAGE, RenderOptional(key.location))
        case None => None
        case Some((t'', replaced)) => Some((t'', if replaced then count + 1 else count))
  }

  /** The key set fits the tree and itself: no key runs into a message or names a subtree, and no
      key's path is a proper prefix of another's. */
  ghost predicate Compatible(t: Tree, keys: seq<Key>) { Fits(t, PathsOf(keys)) }

  ghost predicate Fits(t: Tree, paths: set<Path>) {
    && (forall p :: p in paths ==> !Conflicts(t, p))
    && (forall p, q :: p in paths && q in paths ==> !(p < q))
  }

  lemma PathsOfSnoc(keys: seq<Key>)
    requires keys != []
    ensures PathsOf(keys) == PathsOf(keys[..|keys| - 1]) + {PathOf(keys[|keys| - 1])}
  {
    var front := keys[..|keys| - 1];
    forall p ensures p in PathsOf(keys) <==> p in PathsOf(front) || p == PathOf(keys[|keys| - 1]) {
      if p in PathsOf(front) {
        var i :| 0 <= i < |front| && PathOf(front[i]) == p;
        assert PathOf(keys[i]) == p;
      }
      if p in PathsOf(keys) {
        var i :| 0 <= i < |keys| && PathOf(keys[i]) == p;
        assert i < |front| ==> PathOf(front[i]) == p;
      }
    }
  }

  /** Some path is a proper prefix of `q` or extends it. */
  ghost predicate Clash(paths: set<Path>, q: Path) {
    exists p :: p in paths && (p < q || q < p)
  }

  lemma ClashGrows(paths: set<Path>, path: Path, q: Path)
    ensures Clash(paths + {path}, q) <==> Clash(paths, q) || path < q || q < path
  {
    if p :| p in paths && (p < q || q < p) {
      assert p in paths + {path};
    }
    assert path in paths + {path};
  }

  /** What the insertions so far did to conflicts, messages and the number of messages. */
  ghost predicate Progress(t: Tree, paths: set<Path>, t': Tree, count: nat) {
    && (forall q :: q != [] ==> (Conflicts(t', q) <==> Conflicts(t, q) || Clash(paths, q)))
    && (forall q :: MessageAt(t', q)
         == if MessageAt(t, q).Some? then MessageAt(t, q) else if q in paths then Some(EMPTY_MESSAGE) else None)
    && Leaves(t') == Leaves(t) + paths
    && |Leaves(t')| == |Leaves(t)| + count
  }

  lemma {:induction false} AddAllProgress(t: Tree, keys: seq<Key>)
    requires AddAll(t, keys).Some?
    ensures Progress(t, PathsOf(keys), AddAll(t, keys).value.0, AddAll(t, keys).value.1)
  {
    if keys == [] {
      assert PathsOf(keys) == {};
    } else {
      hide Progress, PathsOf, SetIfNotDefined, PathOf, RenderOptional;
      var front := keys[..|keys| - 1];
      AddAllProgress(t, front);
      PathsOfSnoc(keys);
      ProgressStep(t, PathsOf(front), AddAll(t, front).value.0, AddAll(t, front).value.1, keys[|keys| - 1]);
    }
  }

  lemma ProgressStep(t: Tree, paths: set<Path>, t1: Tree, count: nat, key: Key)
    requires Progress(t, paths, t1, count)
    requires SetIfNotDefined(t1, PathOf(key), EMPTY_MESSAGE, RenderOptional(key.location)).Some?
    ensures var (t2, replaced) := SetIfNotDefined(t1, PathOf(key), EMPTY_MESSAGE, RenderOptional(key.location)).value;
      Progress(t, paths + {PathOf(key)}, t2, if replaced then count + 1 else count)
  {
    hide Conflicts, MessageAt, Leaves, SetIfNotDefined, PathOf, RenderOptional, Clash;
    var path, location := PathOf(key), RenderOptional(key.location);
    var (t2, replaced) := SetIfNotDefined(t1, path, EMPTY_MESSAGE, location).value;
    LeavesAfterSet(t1, path, EMPTY_MESSAGE, location);
    assert Leaves(t2) == Leaves(t) + (paths + {path});
    forall q | q != [] ensures Conflicts(t2, q) <==> Conflicts(t, q) || Clash(paths + {path}, q) {
      ConflictsAfterSet(t1, path, EMPTY_MESSAGE, location, q);
      ClashGrows(paths, path, q);
    }
    forall q ensures MessageAt(t2, q)
      == if MessageAt(t, q).Some? then MessageAt(t, q) else if q in paths + {path} then Some(EMPTY_MESSAGE) else None
    {
      SetFrame(t1, path, EMPTY_MESSAGE, location, q);
    }
  }

  lemma CompatibleSnoc(t: Tree, paths: set<Path>, path: Path)
    requires path != []
    ensures Fits(t, paths + {path}) <==> Fits(t, paths) && !Conflicts(t, path) && !Clash(paths, path)
  {
    hide Conflicts;
    var more := paths + {path};
    assert path in more && forall p :: p in paths ==> p in more;
    if Fits(t, more) {
      assert !Clash(paths, path);
      assert Fits(t, paths);
    }
    if Fits(t, paths) && !Conflicts(t, path) && !Clash(paths, path) {
      forall p, q | p in more && q in more ensures !(p < q) {
        assert p in paths || p == path;
        assert q in paths || q == path;
      }
    }
  }

  /** `add_missing` panics exactly when the keys do not fit the tree and one another, in whatever
      order they were recorded. */
  lemma {:induction false} AddAllPanicsIff(t: Tree, keys: seq<Key>)
    ensures AddAll(t, keys).Some? <==> Compatible(t, keys)
  {
    if keys == [] {
      assert PathsOf(keys) == {};
    } else {
      hide Conflicts, MessageAt, Leaves, SetIfNotDefined, PathOf, RenderOptional, Clash, PathsOf, Fits;
      var front, key := keys[..|keys| - 1], keys[|keys| - 1];
      AddAllPanicsIff(t, front);
      PathsOfSnoc(keys);
      CompatibleSnoc(t, PathsOf(front), PathOf(key));
      if AddAll(t, front).Some? {
        AddAllProgress(t, front);
        SetPanicsIff(AddAll(t, front).value.0, PathOf(key), EMPTY_MESSAGE, RenderOptional(key.location));
      }
    }
  }

  /** On compatible keys nothing that was defined changes, every key is defined afterwards, and the
      count returned is the number of distinct paths that were missing. */
  lemma AddMissingResult(t: Tree, keys: seq<Key>)
    requires Compatible(t, keys)
    ensures AddAll(t, keys).Some?
    ensures var (t', count) := AddAll(t, keys).value;
      && Leaves(t') == Leaves(t) + PathsOf(keys)
      && count == |Leaves(t')| - |Leaves(t)| == |PathsOf(keys) - Leaves(t)|
      && (forall q :: MessageAt(t, q).Some? ==> MessageAt(t', q) == MessageAt(t, q))
      && (forall q :: q in PathsOf(keys) && MessageAt(t, q).None? ==> MessageAt(t', q) == Some(EMPTY_MESSAGE))
      && (forall q :: q !in PathsOf(keys) && MessageAt(t, q).None? ==> MessageAt(t', q).None?)
    ensures EMPTY_MESSAGE == [Sprintf.TextPart("")]
  {
    hide Conflicts, MessageAt, Leaves, PathsOf, Compatible, AddAll, Clash;
    AddAllPanicsIff(t, keys);
    AddAllProgress(t, keys);
    var added := PathsOf(keys) - Leaves(t);
    assert Leaves(t) + PathsOf(keys) == Leaves(t) + added;
    assert Leaves(t) !! added;
  }

  /** The rendered locations of the keys that belong at a path. */
  ghost function RenderedAt(keys: seq<Key>, q: Path): set<string> {
    set i | 0 <= i < |keys| && PathOf(keys[i]) == q && keys[i].location.Some? :: Render(keys[i].location.value)
  }

  /** Every node gets the locations of the keys that belong there beside those it had, and keeps its
      description. */
  lemma {:induction false} LocationsAfter(t: Tree, keys: seq<Key>, q: Path)
    requires AddAll(t, keys).Some?
    ensures var t' := AddAll(t, keys).value.0;
      && LocationsIn(WalkPath(t', q)) == LocationsIn(WalkPath(t, q)) + RenderedAt(keys, q)
      && DescriptionIn(WalkPath(t', q)) == DescriptionIn(WalkPath(t, q))
  {
    if keys == [] {
      assert RenderedAt(keys, q) == {};
    } else {
      var front, key := keys[..|keys| - 1], keys[|keys| - 1];
      LocationsAfter(t, front, q);
      SetFrame(AddAll(t, front).value.0, PathOf(key), EMPTY_MESSAGE, RenderOptional(key.location), q);
      hide SetIfNotDefined, PathOf, Render, WalkPath, AsMessage;
      RenderedSnoc(front, key, q);
      assert keys == front + [key];
    }
  }

  lemma RenderedSnoc(keys: seq<Key>, key: Key, q: Path)
    ensures RenderedAt(keys + [key], q)
         == RenderedAt(keys, q) + if PathOf(key) == q && key.location.Some? then {Render(key.location.value)} else {}
  {
    hide PathOf, Render;
    var all := keys + [key];
    assert forall i :: 0 <= i < |keys| ==> all[i] == keys[i];
    assert all[|keys|] == key;
  }

  /** In one file two locations are rendered alike only if they are the same. */
  lemma RenderIff(l: Location, m: Location)
    requires l.file == m.file
    ensures Render(l) == Render(m) <==> l == m
  {
    hide Decimal;
    if Render(l) == Render(m) {
      RenderedSpan(l);
      RenderedSpan(m);
      SpansAlike(l.span, m.span);
    }
  }

  /** What follows the file, between colons. */
  function SpanPieces(s: Span): seq<string> {
    [""] + [Decimal(s.startLine)]
    + (if s.startLine == s.endLine then [Decimal(s.startCol) + "-" + Decimal(s.endCol)]
       else [Decimal(s.startCol) + "-" + Decimal(s.endLine), Decimal(s.endCol)])
  }

  lemma RenderedSpan(l: Location)
    ensures l.file <= Render(l) && Split(Render(l)[|l.file|..], ':') == SpanPieces(l.span)
  {
    hide Decimal, Render, Split;
    PiecesHaveNoColon(l.span);
    SplitUndoesJoin(SpanPieces(l.span), ':');
    RenderedText(l);
    Behind(l.file, Render(l), Join(SpanPieces(l.span), ":"));
  }

  lemma PiecesHaveNoColon(s: Span)
    ensures forall i :: 0 <= i < |SpanPieces(s)| ==> ':' !in SpanPieces(s)[i]
  {
    NumberChars(s.startLine);
    NumberChars(s.startCol);
    NumberChars(s.endLine);
    NumberChars(s.endCol);
    hide Decimal;
  }

  lemma RenderedText(l: Location)
    ensures Render(l) == l.file + Join(SpanPieces(l.span), ":")
  {
    hide Decimal;
    var s := l.span;
    var a, b, c, d := Decimal(s.startLine), Decimal(s.startCol), Decimal(s.endLine), Decimal(s.endCol);
    if s.startLine == s.endLine {
      assert SpanPieces(s) == ["", a, b + "-" + d];
      JoinThree("", a, b + "-" + d);
    } else {
      assert SpanPieces(s) == ["", a, b + "-" + c, d];
      JoinFour("", a, b + "-" + c, d);
    }
  }

  lemma Behind(file: string, all: string, rest: string)
    requires all == file + rest
    ensures file <= all && all[|file|..] == rest
  {
  }

  lemma JoinThree(a: string, b: string, c: string)
    ensures Join([a, b, c], ":") == a + ":" + b + ":" + c
  {
    assert [a, b, c][1..] == [b, c] && [b, c][1..] == [c];
    assert Join([c], ":") == c && Join([b, c], ":") == b + ":" + c;
    assert a + ":" + (b + ":" + c) == a + ":" + b + ":" + c;
  }

  lemma JoinFour(a: string, b: string, c: string, d: string)
    ensures Join([a, b, c, d], ":") == a + ":" + b + ":" + c + ":" + d
  {
    assert [a, b, c, d][1..] == [b, c, d];
    JoinThree(b, c, d);
    assert a + ":" + (b + ":" + c + ":" + d) == a + ":" + b + ":" + c + ":" + d;
  }

  lemma NumberChars(n: nat)
    ensures ':' !in Decimal(n) && '-' !in Decimal(n)
  {
    DecimalIsNumber(n);
    hide Decimal, NumberOf;
  }

  lemma SameNumber(m: nat, n: nat)
    ensures Decimal(m) == Decimal(n) <==> m == n
  {
    DecimalIsNumber(m);
    DecimalIsNumber(n);
    hide Decimal, NumberOf;
  }

  lemma SamePair(a: nat, b: nat, c: nat, d: nat)
    ensures Decimal(a) + "-" + Decimal(b) == Decimal(c) + "-" + Decimal(d) <==> a == c && b == d
  {
    NumberChars(a);
    NumberChars(b);
    NumberChars(c);
    NumberChars(d);
    hide Decimal;
    HyphenSplits(Decimal(a), Decimal(b));
    HyphenSplits(Decimal(c), Decimal(d));
    SameNumber(a, c);
    SameNumber(b, d);
  }

  lemma HyphenSplits(a: string, b: string)
    requires '-' !in a && '-' !in b
    ensures |Split(a + "-" + b, '-')| == 2 && Split(a + "-" + b, '-')[0] == a && Split(a + "-" + b, '-')[1] == b
  {
    assert [a, b][1..] == [b] && Join([b], "-") == b;
    SplitUndoesJoin([a, b], '-');
  }

  lemma SpansAlike(s: Span, t: Span)
    requires SpanPieces(s) == SpanPieces(t)
    ensures s == t
  {
    hide Decimal;
    assert SpanPieces(s)[1] == SpanPieces(t)[1] && SpanPieces(s)[2] == SpanPieces(t)[2];
    SameNumber(s.startLine, t.startLine);
    if s.startLine == s.endLine {
      SamePair(s.startCol, s.endCol, t.startCol, t.endCol);
    } else {
      SamePair(s.startCol, s.endLine, t.startCol, t.endLine);
      assert SpanPieces(s)[3] == SpanPieces(t)[3];
      SameNumber(s.endCol, t.endCol);
    }
  }

  /** A location on one line, and one on several. */
  lemma RenderExample()
    ensures Render(Location("a.html", Span(1, 2, 1, 9))) == "a.html:1:2-9"
    ensures Render(Location("a.html", Span(1, 2, 3, 4))) == "a.html:1:2-3:4"
  {
    assert Decimal(1) == "1" && Decimal(2) == "2" && Decimal(3) == "3" && Decimal(4) == "4" && Decimal(9) == "9";
  }

  /** Every recorded key is found afterwards: a message by its key, a plural for every category that does
      not name a subtree. */
  lemma AddedKeysAreFound(t: Tree, keys: seq<Key>, key: Key, category: string)
    requires Compatible(t, keys) && key in keys
    ensures AddAll(t, keys).Some?
    ensures var t' := AddAll(t, keys).value.0; var path := Split(key.name, '.');
      && (key.kind == MessageKind ==> MessageFor(t', key.name).Some?)
      && (key.kind == PluralKind ==>
            (Pluralize(t', path, category).Some? <==> !NamesSubtree(t', path + [category])))
  {
    hide AddAll, Compatible, MessageAt, Pluralize, PathsOf, NamesSubtree;
    AddMissingResult(t, keys);
    KeyIsDefined(t, keys, key);
    if key.kind == MessageKind {
      assert PathOf(key) == Split(key.name, '.') + [] == Split(key.name, '.');
    } else {
      PluralIsFound(AddAll(t, keys).value.0, Split(key.name, '.'), category);
    }
  }

  lemma KeyIsDefined(t: Tree, keys: seq<Key>, key: Key)
    requires Compatible(t, keys) && key in keys
    ensures AddAll(t, keys).Some? && MessageAt(AddAll(t, keys).value.0, PathOf(key)).Some?
  {
    hide AddAll, Compatible, MessageAt, PathOf;
    AddMissingResult(t, keys);
    var i :| 0 <= i < |keys| && keys[i] == key;
    assert PathOf(keys[i]) in PathsOf(keys);
  }

  ghost predicate NamesSubtree(t: Tree, path: Path) { WalkPath(t, path).Some? && MessageAt(t, path).None? }

  lemma PluralIsFound(t: Tree, path: Path, category: string)
    requires path != [] && MessageAt(t, path + ["other"]).Some?
    ensures Pluralize(t, path, category).Some? <==> !NamesSubtree(t, path + [category])
  {
    WalkAppend(Root(t), path, ["other"]);
    assert MessageAt(t, path).None?;
    PluralizeIsLookup(t, path, category);
    hide Pluralize;
  }

  lemma PathsAreNotEmpty(keys: seq<Key>)
    ensures [] !in PathsOf(keys)
  {
  }

  /** Running it again finds nothing missing. */
  lemma AddMissingTwice(t: Tree, keys: seq<Key>)
    requires Compatible(t, keys)
    ensures AddAll(t, keys).Some?
    ensures var t' := AddAll(t, keys).value.0; AddAll(t', keys).Some? && AddAll(t', keys).value.1 == 0
  {
    hide MessageAt, Leaves, PathsOf, AddAll, Conflicts;
    AddMissingResult(t, keys);
    AddAllProgress(t, keys);
    PathsAreNotEmpty(keys);
    var t' := AddAll(t, keys).value.0;
    assert Compatible(t', keys);
    AddMissingResult(t', keys);
    assert PathsOf(keys) - Leaves(t') == {};
  }

  /** The scan context: the recorded keys, the name of the translation function, the file at hand. */
  class Context {
    var keys: seq<Key>
    const func: string
    var currentFile: Option<string>

    constructor (f: string)
      ensures keys == [] && func == f && currentFile == None
    {
      keys, func, currentFile := [], f, None;
    }

    method Record(key: Key)
      modifies this`keys
      ensures keys == old(keys) + [key]
    {
      keys := keys + [key];
    }

    function SetKeyLocation(key: Key, span: Span): Key
      reads this
    {
      if currentFile.Some? then key.(location := Some(Location(currentFile.value, span))) else key
    }

    /** `add_missing`; `None` is a panic half way. */
    method AddMissing(translations: TranslationTree) returns (count: Option<nat>)
      modifies translations
      ensures count.Some? <==> Compatible(old(translations.tree), keys)
      ensures count.Some? ==> AddAll(old(translations.tree), keys) == Some((translations.tree, count.value))
    {
      hide SetIfNotDefined, PathOf, RenderOptional, Compatible;
      AddAllPanicsIff(translations.tree, keys);
      var n := 0;
      for i := 0 to |keys|
        invariant AddAll(old(translations.tree), keys[..i]) == Some((translations.tree, n))
      {
        var key := keys[i];
        assert keys[..i + 1][..i] == keys[..i];
        SetPanicsIff(translations.tree, PathOf(key), EMPTY_MESSAGE, RenderOptional(key.location));
        var replaced := translations.Set(PathOf(key), EMPTY_MESSAGE, RenderOptional(key.location));
        if replaced.None? {
          PanicIsFinal(old(translations.tree), keys, i + 1);
          return None;
        }
        if replaced.value {
          n := n + 1;
        }
      }
      assert keys[..|keys|] == keys;
      return Some(n);
    }
  }

  lemma {:induction false} PanicIsFinal(t: Tree, keys: seq<Key>, i: nat)
    requires i <= |keys| && AddAll(t, keys[..i]).None?
    ensures AddAll(t, keys).None?
  {
    if i < |keys| {
      assert keys[..|keys| - 1][..i] == keys[..i];
      PanicIsFinal(t, keys[..|keys| - 1], i);
    } else {
      assert keys[..i] == keys;
    }
  }
}
