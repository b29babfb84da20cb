/** Selecting keys by constraints (crates/jose/src/constraints.rs). Algorithms, key uses and key types
    are names. */
module Constraints {
  import opened Text

  datatype Key = Key(alg: Option<string>, algs: seq<string>, kid: Option<string>, use: Option<string>, kty: string)

  datatype Constraint =
    | Alg(alg: string)
    | Algs(algs: seq<string>)
    | Kid(kid: string)
    | Use(use: string)
    | Kty(kty: string)

  datatype Decision = Positive | Neutral | Negative

  function Match(b: bool): Decision { if b then Positive else Negative }

  function Decide(c: Constraint, k: Key): Decision {
    match c
    case Alg(alg) =>
      if k.alg.Some? then Match(k.alg.value == alg)
      else if alg in k.algs then Neutral else Negative
    case Algs(algs) =>
      if k.alg.Some? then Match(k.alg.value in algs)
      else if exists a :: a in k.algs && a in algs then Neutral else Negative
    case Kid(kid) => if k.kid.Some? then Match(k.kid.value == kid) else Neutral
    case Use(use) => if k.use.Some? then Match(k.use.value == use) else Neutral
    case Kty(kty) => Match(kty == k.kty)
  }

  /** The algorithms a key may be used with. */
  function Usable(k: Key): set<string> { if k.alg.Some? then {k.alg.value} else set a | a in k.algs }

  /** What a decision says about the key: a constraint on algorithms rejects the keys that can use none
      of them and favours those bound to one; a constraint on an attribute rejects the keys that have
      another value and favours those that have this one. */
  lemma DecisionMeans(k: Key)
    ensures forall a :: Decide(Alg(a), k) == Decide(Algs([a]), k)
    ensures forall algs :: Decide(Algs(algs), k) == Negative <==> Usable(k) !! set a | a in algs
    ensures forall algs :: Decide(Algs(algs), k) == Positive <==> k.alg.Some? && k.alg.value in algs
    ensures forall id :: Decide(Kid(id), k) == Negative <==> k.kid !in {None, Some(id)}
    ensures forall id :: Decide(Kid(id), k) == Positive <==> k.kid == Some(id)
    ensures forall u :: Decide(Use(u), k) == Negative <==> k.use !in {None, Some(u)}
    ensures forall u :: Decide(Use(u), k) == Positive <==> k.use == Some(u)
    ensures forall t :: Decide(Kty(t), k) == Positive <==> k.kty == t
    ensures forall t :: Decide(Kty(t), k) != Neutral
  {
    forall algs ensures Decide(Algs(algs), k) == Negative <==> Usable(k) !! set a | a in algs {
      if Decide(Algs(algs), k) == Negative {
        assert forall a :: a in Usable(k) ==> a !in algs;
      } else {
        var a :| a in Usable(k) && a in algs;
        assert a in set b | b in algs;
      }
    }
  }

  predicate Survives(cs: set<Constraint>, k: Key) { forall c :: c in cs ==> Decide(c, k) != Negative }

  function Score(cs: set<Constraint>, k: Key): nat { |set c | c in cs && Decide(c, k) == Positive| }

  function By(cs: set<Constraint>): Key -> int { (k: Key) => Score(cs, k) }

  function Survivors(cs: set<Constraint>, keys: seq<Key>): seq<Key> {
    if keys == [] then []
    else
      var k := keys[|keys| - 1];
      Survivors(cs, keys[..|keys| - 1]) + if Survives(cs, k) then [k] else []
  }

  /** What `filter` returns: the survivors by ascending score, ties in the order given. */
  function Selected(cs: set<Constraint>, keys: seq<Key>): seq<Key> { StableSort(Survivors(cs, keys), By(cs)) }

  lemma {:induction false} SurvivorsCount(cs: set<Constraint>, keys: seq<Key>, k: Key)
    ensures multiset(Survivors(cs, keys))[k] == if Survives(cs, k) then multiset(keys)[k] else 0
  {
    if keys != [] {
      var front, last := keys[..|keys| - 1], keys[|keys| - 1];
      SurvivorsCount(cs, front, k);
      assert keys == front + [last];
    }
  }

  /** The selection has each key without a negative decision as often as it was offered and no other
      key, in ascending order of positive decisions, ties in the order offered. */
  lemma SelectionIsExact(cs: set<Constraint>, keys: seq<Key>)
    ensures forall k :: multiset(Selected(cs, keys))[k]
                     == if forall c :: c in cs ==> Decide(c, k) != Negative then multiset(keys)[k] else 0
    ensures forall k :: multiset(Selected(cs, keys))[k] == if Survives(cs, k) then multiset(keys)[k] else 0
    ensures Ascending(Selected(cs, keys), By(cs))
    ensures forall k :: By(cs)(k) == |set c | c in cs && Decide(c, k) == Positive|
    ensures forall n :: WithKey(Selected(cs, keys), By(cs), n) == WithKey(Survivors(cs, keys), By(cs), n)
  {
    SortIsStable(Survivors(cs, keys), By(cs));
    forall k
      ensures multiset(Selected(cs, keys))[k] == if Survives(cs, k) then multiset(keys)[k] else 0
      ensures Survives(cs, k) <==> forall c :: c in cs ==> Decide(c, k) != Negative
    {
      SurvivorsCount(cs, keys, k);
    }
  }

  /** The survivors of a union are the common survivors: filtering by one set and then by the other. */
  lemma {:induction false} UnionIntersects(cs: set<Constraint>, ds: set<Constraint>, keys: seq<Key>)
    ensures Survivors(cs + ds, keys) == Survivors(cs, Survivors(ds, keys))
  {
    if keys != [] {
      var front, k := keys[..|keys| - 1], keys[|keys| - 1];
      UnionIntersects(cs, ds, front);
      assert keys == front + [k];
      UnionStep(cs, ds, front, k);
    }
  }

  lemma UnionStep(cs: set<Constraint>, ds: set<Constraint>, front: seq<Key>, k: Key)
    requires Survivors(cs + ds, front) == Survivors(cs, Survivors(ds, front))
    ensures Survivors(cs + ds, front + [k]) == Survivors(cs, Survivors(ds, front + [k]))
  {
    hide Survives, Survivors;
    BothSurvive(cs, ds, k);
    SurvivorsSnoc(cs + ds, front, k);
    SurvivorsSnoc(ds, front, k);
    if Survives(ds, k) {
      SurvivorsSnoc(cs, Survivors(ds, front), k);
    } else {
      assert Survivors(ds, front + [k]) == Survivors(ds, front);
      assert Survivors(cs + ds, front + [k]) == Survivors(cs + ds, front);
    }
  }

  lemma BothSurvive(cs: set<Constraint>, ds: set<Constraint>, k: Key)
    ensures Survives(cs + ds, k) <==> Survives(cs, k) && Survives(ds, k)
  {
    hide Decide;
  }

  lemma SurvivorsSnoc(cs: set<Constraint>, keys: seq<Key>, k: Key)
    ensures Survivors(cs, keys + [k]) == Survivors(cs, keys) + if Survives(cs, k) then [k] else []
  {
    assert (keys + [k])[..|keys|] == keys;
  }

  /** Adding constraints only ever takes keys away. */
  lemma MoreConstraintsFewerKeys(cs: set<Constraint>, ds: set<Constraint>, keys: seq<Key>)
    ensures multiset(Selected(cs + ds, keys)) <= multiset(Selected(cs, keys))
  {
    hide Survives, Selected;
    SelectionIsExact(cs + ds, keys);
    SelectionIsExact(cs, keys);
    forall k ensures Survives(cs + ds, k) ==> Survives(cs, k) {
      FewerIsWeaker(cs, ds, k);
    }
  }

  lemma FewerIsWeaker(cs: set<Constraint>, ds: set<Constraint>, k: Key)
    ensures Survives(cs + ds, k) ==> Survives(cs, k)
  {
    assert forall c :: c in cs ==> c in cs + ds;
  }

  // ---------------------------------------------------------------- constraints of a JWS header

  function HeaderConstraints(alg: string, kid: Option<string>): set<Constraint> {
    {Alg(alg)} + if kid.Some? then {Kid(kid.value)} else {}
  }

  /** A key can serve a header if and only if it allows the algorithm and does not have another id. */
  lemma HeaderSelects(alg: string, kid: Option<string>, k: Key)
    ensures Survives(HeaderConstraints(alg, kid), k)
       <==> (if k.alg.Some? then k.alg.value == alg else alg in k.algs) && (kid.Some? && k.kid.Some? ==> kid == k.kid)
  {
    var cs := HeaderConstraints(alg, kid);
    assert Alg(alg) in cs;
    assert kid.Some? ==> Kid(kid.value) in cs;
  }

  /** With a key id in the header, a key of that id never comes before an equally specific key
      without one. */
  lemma NamedKeyComesLater(alg: string, kid: string, keys: seq<Key>, i: nat, j: nat)
    requires var r := Selected(HeaderConstraints(alg, Some(kid)), keys);
      i < |r| && j < |r| && r[i].kid == Some(kid) && r[j].kid.None? && r[i].alg.Some? == r[j].alg.Some?
    ensures j < i
  {
    hide Selected, Survives, Score, HeaderConstraints, Ascending;
    var cs := HeaderConstraints(alg, Some(kid));
    var r := Selected(cs, keys);
    SelectedSurvives(cs, keys, i);
    SelectedSurvives(cs, keys, j);
    HeaderScore(alg, kid, r[i]);
    HeaderScore(alg, kid, r[j]);
    SelectionIsExact(cs, keys);
    HigherIsLater(r, By(cs), i, j);
  }

  lemma HigherIsLater(r: seq<Key>, key: Key -> int, i: nat, j: nat)
    requires i < |r| && j < |r| && Ascending(r, key) && key(r[j]) < key(r[i])
    ensures j < i
  {
  }

  lemma SelectedSurvives(cs: set<Constraint>, keys: seq<Key>, i: nat)
    requires i < |Selected(cs, keys)|
    ensures Survives(cs, Selected(cs, keys)[i])
  {
    hide Selected, Survives, Score;
    SelectionIsExact(cs, keys);
    assert Selected(cs, keys)[i] in multiset(Selected(cs, keys));
  }

  lemma HeaderScore(alg: string, kid: string, k: Key)
    requires Survives(HeaderConstraints(alg, Some(kid)), k)
    ensures Score(HeaderConstraints(alg, Some(kid)), k)
         == (if k.alg.Some? then 1 else 0) + if k.kid.Some? then 1 else 0
  {
    var cs := HeaderConstraints(alg, Some(kid));
    assert Alg(alg) in cs && Kid(kid) in cs;
    var positive := set c | c in cs && Decide(c, k) == Positive;
    assert Decide(Alg(alg), k) == Positive <==> k.alg.Some?;
    assert Decide(Kid(kid), k) == Positive <==> k.kid.Some?;
    assert cs == {Alg(alg), Kid(kid)};
    hide Decide, Survives;
    assert positive == (if k.alg.Some? then {Alg(alg)} else {}) + if k.kid.Some? then {Kid(kid)} else {};
  }

  // ---------------------------------------------------------------- the loops

  lemma {:induction false} SurvivorsPrefix(cs: set<Constraint>, keys: seq<Key>, i: nat)
    requires i < |keys|
    ensures Survivors(cs, keys[..i + 1]) == Survivors(cs, keys[..i]) + if Survives(cs, keys[i]) then [keys[i]] else []
  {
    assert keys[..i + 1] == keys[..i] + [keys[i]];
    SurvivorsSnoc(cs, keys[..i], keys[i]);
  }

  function Positives(cs: set<Constraint>, k: Key): set<Constraint> {
    set c | c in cs && Decide(c, k) == Positive
  }

  function First(p: (nat, Key)): int { p.0 }

  /** The keys with their scores. */
  function Scored(cs: set<Constraint>, keys: seq<Key>): (r: seq<(nat, Key)>)
    ensures |r| == |keys| && forall i :: 0 <= i < |keys| ==> r[i] == (Score(cs, keys[i]), keys[i])
  {
    seq(|keys|, i requires 0 <= i < |keys| => (Score(cs, keys[i]), keys[i]))
  }

  lemma {:induction false} InsertScored(cs: set<Constraint>, k: Key, keys: seq<Key>)
    ensures Insert((Score(cs, k), k), Scored(cs, keys), First) == Scored(cs, Insert(k, keys, By(cs)))
  {
    hide Score;
    if keys != [] {
      assert Scored(cs, keys)[1..] == Scored(cs, keys[1..]);
      InsertScored(cs, k, keys[1..]);
    }
  }

  /** Sorting the pairs by score is sorting the keys by score. */
  lemma {:induction false} SortScored(cs: set<Constraint>, keys: seq<Key>)
    ensures StableSort(Scored(cs, keys), First) == Scored(cs, StableSort(keys, By(cs)))
  {
    hide Score;
    if keys != [] {
      SortScored(cs, keys[1..]);
      assert Scored(cs, keys)[1..] == Scored(cs, keys[1..]);
      InsertScored(cs, keys[0], StableSort(keys[1..], By(cs)));
    }
  }

  class ConstraintSet {
    var constraints: set<Constraint>

    constructor ()
      ensures constraints == {}
    {
      constraints := {};
    }

    /** The conversion of a JWS header. */
    constructor FromHeader(alg: string, kid: Option<string>)
      ensures constraints == HeaderConstraints(alg, kid)
    {
      constraints := {};
      new;
      Add(Alg(alg));
      if kid.Some? {
        Add(Kid(kid.value));
      }
    }

    /** The builders: each inserts one constraint. */
    method Add(c: Constraint)
      modifies this
      ensures constraints == old(constraints) + {c}
    {
      constraints := constraints + {c};
    }

    /** The inner loop of `filter`, over the hash set in whatever order it comes: the score, or none
        if some decision is negative. */
    method ScoreOf(k: Key) returns (r: Option<nat>)
      ensures r == if Survives(constraints, k) then Some(Score(constraints, k)) else None
    {
      var score, rest := 0, constraints;
      ghost var seen: set<Constraint> := {};
      while rest != {}
        invariant rest <= constraints && seen == constraints - rest
        invariant Survives(seen, k) && score == |Positives(seen, k)|
        decreases rest
      {
        var c :| c in rest;
        rest := rest - {c};
        OneMore(seen, c, k);
        seen := seen + {c};
        match Decide(c, k)
        case Positive => score := score + 1;
        case Neutral =>
        case Negative => return None;
      }
      assert seen == constraints;
      return Some(score);
    }

    method Filter(keys: seq<Key>) returns (r: seq<Key>)
      ensures r == Selected(constraints, keys)
    {
      hide Score, Survives, StableSort;
      var selected: seq<(nat, Key)> := [];
      for i := 0 to |keys|
        invariant selected == Scored(constraints, Survivors(constraints, keys[..i]))
      {
        var score := ScoreOf(keys[i]);
        SurvivorsPrefix(constraints, keys, i);
        if score.Some? {
          selected := selected + [(score.value, keys[i])];
        }
      }
      assert keys[..|keys|] == keys;
      selected := StableSort(selected, First);
      SortScored(constraints, Survivors(constraints, keys));
      r := Unscored(constraints, selected, Selected(constraints, keys));
    }
  }

  lemma OneMore(seen: set<Constraint>, c: Constraint, k: Key)
    requires c !in seen && Survives(seen, k)
    ensures Survives(seen + {c}, k) <==> Decide(c, k) != Negative
    ensures |Positives(seen + {c}, k)| == |Positives(seen, k)| + if Decide(c, k) == Positive then 1 else 0
  {
    hide Decide;
    if Decide(c, k) == Positive {
      assert Positives(seen + {c}, k) == Positives(seen, k) + {c};
    } else {
      assert Positives(seen + {c}, k) == Positives(seen, k);
    }
  }

  method Unscored(ghost cs: set<Constraint>, selected: seq<(nat, Key)>, ghost keys: seq<Key>) returns (r: seq<Key>)
    requires selected == Scored(cs, keys)
    ensures r == keys
  {
    r := seq(|selected|, i requires 0 <= i < |selected| => selected[i].1);
  }
}
