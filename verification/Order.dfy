/** The order of Rust strings, in which `BTreeMap` and `BTreeSet` are iterated. */
module Order {

  predicate Below(a: string, b: string) {
    b != [] && (a == [] || a[0] < b[0] || (a[0] == b[0] && Below(a[1..], b[1..])))
  }

  /** One string is below another if it is a proper prefix of it, or smaller where they first differ. */
  lemma {:induction false} BelowIff(a: string, b: string)
    ensures Below(a, b) <==> a < b || exists k: nat :: DifferAt(a, b, k) && a[k] < b[k]
  {
    if a == [] || b == [] {
      assert a == [] && b != [] ==> a < b;
    } else if a[0] != b[0] {
      assert DifferAt(a, b, 0);
      forall k: nat ensures DifferAt(a, b, k) ==> k == 0 {
        DifferLater(a, b, k);
      }
    } else {
      BelowIff(a[1..], b[1..]);
      assert a < b <==> a[1..] < b[1..];
      if k: nat :| DifferAt(a[1..], b[1..], k) && a[1..][k] < b[1..][k] {
        assert a[..k + 1] == [a[0]] + a[1..][..k] && b[..k + 1] == [b[0]] + b[1..][..k];
        assert DifferAt(a, b, k + 1);
      }
      if k: nat :| DifferAt(a, b, k) && a[k] < b[k] {
        assert a[1..][..k - 1] == a[..k][1..] && b[1..][..k - 1] == b[..k][1..];
        assert DifferAt(a[1..], b[1..], k - 1);
      }
    }
  }

  lemma DifferLater(a: string, b: string, k: nat)
    requires a != [] && b != []
    ensures DifferAt(a, b, k) && k > 0 ==> a[0] == b[0]
  {
    if DifferAt(a, b, k) && k > 0 {
      assert a[..k][0] == b[..k][0];
    }
  }

  predicate DifferAt(a: string, b: string, k: nat) { k < |a| && k < |b| && a[..k] == b[..k] && a[k] != b[k] }

  predicate IsLeast(m: string, s: set<string>) {
    m in s && forall x :: x in s ==> x == m || Below(m, x)
  }

  lemma {:induction false} BelowTransitive(a: string, b: string, c: string)
    requires Below(a, b) && Below(b, c)
    ensures Below(a, c)
  {
    if a != [] && a[0] == b[0] && b[0] == c[0] {
      BelowTransitive(a[1..], b[1..], c[1..]);
    }
  }

  lemma {:induction false} BelowTotal(a: string, b: string)
    ensures a == b || Below(a, b) || Below(b, a)
    ensures !(Below(a, b) && Below(b, a)) && !Below(a, a)
  {
    if a != [] && b != [] {
      BelowTotal(a[1..], b[1..]);
      BelowTotal(a[1..], a[1..]);
      assert a == [a[0]] + a[1..] && b == [b[0]] + b[1..];
    } else if a != [] {
      BelowTotal(a[1..], a[1..]);
    }
  }

  lemma {:induction false} LeastExists(s: set<string>)
    requires s != {}
    ensures exists m :: IsLeast(m, s)
  {
    var x :| x in s;
    if s == {x} {
      assert IsLeast(x, s);
    } else {
      LeastExists(s - {x});
      var m :| IsLeast(m, s - {x});
      BelowTotal(m, x);
      if Below(x, m) {
        forall y | y in s ensures y == x || Below(x, y) {
          if y != x && y != m {
            BelowTransitive(x, m, y);
          }
        }
        assert IsLeast(x, s);
      } else {
        assert IsLeast(m, s);
      }
    }
  }

  /** The elements of a set in ascending order. */
  ghost function Sorted(s: set<string>): (r: seq<string>)
    ensures forall x :: x in r <==> x in s
    ensures forall i, j :: 0 <= i < j < |r| ==> r[i] != r[j]
    ensures |r| == |s|
  {
    if s == {} then []
    else
      LeastExists(s);
      var m :| IsLeast(m, s);
      [m] + Sorted(s - {m})
  }

  lemma LeastIsUnique(m: string, n: string, s: set<string>)
    requires IsLeast(m, s) && IsLeast(n, s)
    ensures m == n
  {
    BelowTotal(m, n);
  }

  /** Taking the least element first is how the set is iterated. */
  lemma SortedStep(s: set<string>, m: string)
    requires IsLeast(m, s)
    ensures Sorted(s) == [m] + Sorted(s - {m})
  {
    forall n | IsLeast(n, s) ensures n == m {
      LeastIsUnique(m, n, s);
    }
  }

  ghost predicate Ascends(r: seq<string>) { forall i, j :: 0 <= i < j < |r| ==> Below(r[i], r[j]) }

  /** The elements come in ascending order. */
  lemma {:induction false} SortedAscends(s: set<string>)
    ensures Ascends(Sorted(s))
    decreases |s|
  {
    hide Sorted, Ascends;
    if s == {} {
      NothingAscends(Sorted(s));
    } else {
      LeastExists(s);
      var m :| IsLeast(m, s);
      SortedStep(s, m);
      SortedAscends(s - {m});
      AscendCons(m, Sorted(s - {m}));
    }
  }

  lemma NothingAscends(r: seq<string>)
    requires |r| == 0
    ensures Ascends(r)
  {
  }

  lemma AscendCons(m: string, r: seq<string>)
    requires Ascends(r) && forall x :: x in r ==> Below(m, x)
    ensures Ascends([m] + r)
  {
    hide Below;
    var all := [m] + r;
    forall i, j | 0 <= i < j < |all| ensures Below(all[i], all[j]) {
      assert all[j] == r[j - 1];
      assert i > 0 ==> all[i] == r[i - 1];
    }
  }
}
