/** Splitting, joining and stable sorting: the library operations that the codecs
    of this project share. */
module Text {

  datatype Option<+T> = None | Some(value: T)

  datatype Result<+T, +E> = Ok(value: T) | Err(error: E)

  /** `str::split` with a one-character separator: always at least one piece. */
  function Split<T(==)>(s: seq<T>, sep: T): (pieces: seq<seq<T>>)
    ensures |pieces| >= 1
    ensures forall i :: 0 <= i < |pieces| ==> sep !in pieces[i]
    ensures Join(pieces, [sep]) == s
  {
    if s == [] then [[]]
    else
      var rest := Split(s[1..], sep);
      if s[0] == sep then [[]] + rest else [[s[0]] + rest[0]] + rest[1..]
  }

  function Join<T>(pieces: seq<seq<T>>, glue: seq<T>): seq<T> {
    if pieces == [] then []
    else if |pieces| == 1 then pieces[0]
    else pieces[0] + glue + Join(pieces[1..], glue)
  }

  /** Splitting is the only way to cut a text into separator-free pieces. */
  lemma {:induction false} SplitUndoesJoin<T>(pieces: seq<seq<T>>, sep: T)
    requires |pieces| >= 1
    requires forall i :: 0 <= i < |pieces| ==> sep !in pieces[i]
    ensures Split(Join(pieces, [sep]), sep) == pieces
    decreases |pieces|, if pieces == [] then 0 else |pieces[0]|
  {
    var first := pieces[0];
    var s := Join(pieces, [sep]);
    if first != [] {
      var shorter := [first[1..]] + pieces[1..];
      assert forall i :: 0 <= i < |shorter| ==> sep !in shorter[i];
      assert s[1..] == Join(shorter, [sep]);
      SplitUndoesJoin(shorter, sep);
      assert [first[0]] + first[1..] == first;
    } else if |pieces| > 1 {
      assert s == [sep] + Join(pieces[1..], [sep]);
      SplitUndoesJoin(pieces[1..], sep);
    }
  }

  lemma {:induction false} SplitAcrossSeparator<T>(a: seq<T>, b: seq<T>, sep: T)
    ensures Split(a + [sep] + b, sep) == Split(a, sep) + Split(b, sep)
  {
    JoinAppend(Split(a, sep), Split(b, sep), [sep]);
    SplitUndoesJoin(Split(a, sep) + Split(b, sep), sep);
  }

  lemma {:induction false} JoinAppend<T>(a: seq<seq<T>>, b: seq<seq<T>>, glue: seq<T>)
    requires |a| >= 1 && |b| >= 1
    ensures Join(a + b, glue) == Join(a, glue) + glue + Join(b, glue)
  {
    if |a| == 1 {
      assert (a + b)[1..] == b;
    } else {
      JoinAppend(a[1..], b, glue);
      assert (a + b)[1..] == a[1..] + b;
    }
  }

  /** The decimal digits of a number. */
  function Decimal(n: nat): (s: string)
    ensures |s| >= 1
  {
    if n < 10 then [Digit(n)] else Decimal(n / 10) + [Digit(n % 10)]
  }

  function Digit(d: nat): char
    requires d < 10
  {
    "0123456789"[d]
  }

  predicate IsDigit(c: char) { '0' <= c <= '9' }

  predicate AllDigits(s: string) { forall i :: 0 <= i < |s| ==> IsDigit(s[i]) }

  function NumberOf(s: string): nat
    requires AllDigits(s)
  {
    if s == "" then 0 else NumberOf(s[..|s| - 1]) * 10 + (s[|s| - 1] as nat - '0' as nat)
  }

  lemma NumberOfSnoc(s: string, d: nat)
    requires AllDigits(s) && d < 10
    ensures AllDigits(s + [Digit(d)]) && NumberOf(s + [Digit(d)]) == NumberOf(s) * 10 + d
  {
    assert (s + [Digit(d)])[..|s|] == s;
    DigitIsDigit(d);
  }

  lemma DigitIsDigit(d: nat)
    requires d < 10
    ensures IsDigit(Digit(d)) && Digit(d) as nat == '0' as nat + d
  {
  }

  lemma {:induction false} DecimalIsNumber(n: nat)
    ensures AllDigits(Decimal(n)) && NumberOf(Decimal(n)) == n
  {
    if n < 10 {
      NumberOfSnoc("", n);
      assert "" + [Digit(n)] == Decimal(n);
    } else {
      DecimalIsNumber(n / 10);
      NumberOfSnoc(Decimal(n / 10), n % 10);
    }
  }

  ghost predicate Ascending<T(!new)>(s: seq<T>, key: T -> int) {
    forall i, j :: 0 <= i < j < |s| ==> key(s[i]) <= key(s[j])
  }

  /** The elements of `s` whose key is `k`, in order. */
  function WithKey<T>(s: seq<T>, key: T -> int, k: int): (r: seq<T>)
    ensures forall x :: x in r ==> x in s && key(x) == k
    ensures forall x :: x in s && key(x) == k ==> x in r
  {
    if s == [] then []
    else (if key(s[0]) == k then [s[0]] else []) + WithKey(s[1..], key, k)
  }

  lemma WithKeyCons<T>(x: T, s: seq<T>, key: T -> int, k: int)
    ensures WithKey([x] + s, key, k) == (if key(x) == k then [x] else []) + WithKey(s, key, k)
  {
    assert ([x] + s)[1..] == s;
  }

  /** `r` is `s` sorted stably: ascending, and the elements of equal key are those of
      `s` in the order they have in `s`. */
  ghost predicate StablySorted<T(!new)>(s: seq<T>, key: T -> int, r: seq<T>) {
    && Ascending(r, key)
    && forall k :: WithKey(r, key, k) == WithKey(s, key, k)
  }

  /** `slice::sort_by_key`: a stable sort, written as an insertion sort. */
  function StableSort<T>(s: seq<T>, key: T -> int): (r: seq<T>) {
    if s == [] then [] else Insert(s[0], StableSort(s[1..], key), key)
  }

  function Insert<T>(x: T, s: seq<T>, key: T -> int): (r: seq<T>) {
    if s == [] || key(x) <= key(s[0]) then [x] + s else [s[0]] + Insert(x, s[1..], key)
  }

  lemma {:induction false} InsertKeepsElements<T>(x: T, s: seq<T>, key: T -> int)
    ensures multiset(Insert(x, s, key)) == multiset([x] + s)
  {
    if s != [] && key(x) > key(s[0]) {
      InsertKeepsElements(x, s[1..], key);
      assert [x] + s == [x] + ([s[0]] + s[1..]);
    }
  }

  lemma {:induction false} InsertKeepsAscending<T(!new)>(x: T, s: seq<T>, key: T -> int)
    requires Ascending(s, key)
    ensures Ascending(Insert(x, s, key), key)
  {
    if s != [] && key(x) > key(s[0]) {
      InsertKeepsAscending(x, s[1..], key);
      InsertKeepsAbove(x, s[1..], key, key(s[0]));
    }
  }

  lemma {:induction false} InsertKeepsAbove<T>(x: T, s: seq<T>, key: T -> int, least: int)
    requires least <= key(x) && forall i :: 0 <= i < |s| ==> least <= key(s[i])
    ensures forall i :: 0 <= i < |Insert(x, s, key)| ==> least <= key(Insert(x, s, key)[i])
  {
    if s != [] && key(x) > key(s[0]) {
      InsertKeepsAbove(x, s[1..], key, least);
    }
  }

  lemma {:induction false} InsertKeepsGroups<T>(x: T, s: seq<T>, key: T -> int, k: int)
    ensures WithKey(Insert(x, s, key), key, k) == WithKey([x] + s, key, k)
  {
    hide WithKey;
    WithKeyCons(x, s, key, k);
    if s != [] && key(x) > key(s[0]) {
      InsertKeepsGroups(x, s[1..], key, k);
      WithKeyCons(x, s[1..], key, k);
      WithKeyCons(s[0], s[1..], key, k);
      WithKeyCons(s[0], Insert(x, s[1..], key), key, k);
      assert s == [s[0]] + s[1..];
    }
  }

  lemma {:induction false} SortIsStable<T(!new)>(s: seq<T>, key: T -> int)
    ensures StablySorted(s, key, StableSort(s, key))
    ensures multiset(StableSort(s, key)) == multiset(s)
  {
    if s != [] {
      var t := StableSort(s[1..], key);
      SortIsStable(s[1..], key);
      InsertKeepsElements(s[0], t, key);
      InsertKeepsAscending(s[0], t, key);
      assert s == [s[0]] + s[1..];
      forall k ensures WithKey(StableSort(s, key), key, k) == WithKey(s, key, k) {
        InsertKeepsGroups(s[0], t, key, k);
        WithKeyCons(s[0], t, key, k);
        assert WithKey(t, key, k) == WithKey(s[1..], key, k);
      }
    }
  }

  /** Sortedness, equal groups and their inner order leave no freedom: any stable sort is this one. */
  lemma {:induction false} StableSortIsUnique<T(!new)>(s: seq<T>, key: T -> int, r: seq<T>)
    requires StablySorted(s, key, r)
    ensures r == StableSort(s, key)
  {
    SortIsStable(s, key);
    SameGroupsSameOrder(r, StableSort(s, key), key);
  }

  lemma {:induction false} SameGroupsSameOrder<T(!new)>(a: seq<T>, b: seq<T>, key: T -> int)
    requires Ascending(a, key) && Ascending(b, key)
    requires forall k :: WithKey(a, key, k) == WithKey(b, key, k)
    ensures a == b
  {
    if b != [] {
      FirstOfGroup(b, a, key);
    }
    if a != [] {
      FirstOfGroup(a, b, key);
      SameFirst(a, b, key);
      hide WithKey;
      forall k ensures WithKey(a[1..], key, k) == WithKey(b[1..], key, k) {
        SameTails(a, b, key, k);
      }
      SameGroupsSameOrder(a[1..], b[1..], key);
      assert a == [a[0]] + a[1..] && b == [b[0]] + b[1..];
    }
  }

  lemma SameFirst<T>(a: seq<T>, b: seq<T>, key: T -> int)
    requires a != [] && b != [] && key(a[0]) == key(b[0])
    requires WithKey(a, key, key(a[0])) == WithKey(b, key, key(a[0]))
    ensures a[0] == b[0]
  {
    assert WithKey(a, key, key(a[0]))[0] == a[0] && WithKey(b, key, key(a[0]))[0] == b[0];
  }

  lemma SameTails<T>(a: seq<T>, b: seq<T>, key: T -> int, k: int)
    requires a != [] && b != [] && a[0] == b[0]
    requires WithKey(a, key, k) == WithKey(b, key, k)
    ensures WithKey(a[1..], key, k) == WithKey(b[1..], key, k)
  {
    var head := if key(a[0]) == k then [a[0]] else [];
    assert WithKey(a, key, k)[|head|..] == WithKey(a[1..], key, k);
    assert WithKey(b, key, k)[|head|..] == WithKey(b[1..], key, k);
  }

  lemma {:induction false} FirstOfGroup<T(!new)>(a: seq<T>, b: seq<T>, key: T -> int)
    requires a != [] && Ascending(a, key) && Ascending(b, key)
    requires forall k :: WithKey(a, key, k) == WithKey(b, key, k)
    ensures b != [] && key(b[0]) <= key(a[0])
  {
    var k := key(a[0]);
    assert a[0] in WithKey(a, key, k);
    assert a[0] in WithKey(b, key, k);
    assert a[0] in b;
  }
}
