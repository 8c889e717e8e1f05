/** Sorting: Python's `sorted` over a set of distinct items, and its comparison of strings and of
    paths. */
module Orders {
  import opened Text

  type Less<!T> = (T, T) -> bool

  ghost predicate StrictOrder<T(!new)>(less: Less<T>) {
    && (forall x :: !less(x, x))
    && (forall x, y, z :: less(x, y) && less(y, z) ==> less(x, z))
    && (forall x, y :: less(x, y) || x == y || less(y, x))
  }

  predicate Increasing<T>(less: Less<T>, s: seq<T>) {
    forall i, j :: 0 <= i < j < |s| ==> less(s[i], s[j])
  }

  function Items<T(==)>(s: seq<T>): (items: set<T>) {
    set x | x in s
  }

  ghost predicate Enumerates<T>(less: Less<T>, s: seq<T>, items: set<T>) {
    Increasing(less, s) && Items(s) == items
  }

  /** A set has one increasing enumeration. */
  lemma {:induction false} EnumerationIsUnique<T(!new)>(less: Less<T>, a: seq<T>, b: seq<T>)
    requires StrictOrder(less) && Increasing(less, a) && Increasing(less, b) && Items(a) == Items(b)
    ensures a == b
  {
    HasItems(a);
    HasItems(b);
    if a != [] {
      SmallestFirst(less, a, b[0]);
      SmallestFirst(less, b, a[0]);
      assert a[0] == b[0];
      RestItems(less, a);
      RestItems(less, b);
      EnumerationIsUnique(less, a[1..], b[1..]);
      Uncons(a);
      Uncons(b);
    }
  }

  lemma HasItems<T>(s: seq<T>)
    ensures s == [] <==> Items(s) == {}
    ensures s != [] ==> s[0] in Items(s)
  {
    if s != [] {
      assert s[0] in Items(s);
    }
  }

  lemma SmallestFirst<T(!new)>(less: Less<T>, s: seq<T>, x: T)
    requires Increasing(less, s) && x in Items(s)
    ensures s != [] && (x == s[0] || less(s[0], x))
  {
    var k :| 0 <= k < |s| && s[k] == x;
  }

  lemma RestItems<T(!new)>(less: Less<T>, s: seq<T>)
    requires StrictOrder(less) && Increasing(less, s) && s != []
    ensures Increasing(less, s[1..]) && Items(s[1..]) == Items(s) - {s[0]}
  {
    forall x ensures x in Items(s[1..]) <==> x in Items(s) - {s[0]} {
      if x in Items(s[1..]) {
        var k :| 0 <= k < |s[1..]| && s[1..][k] == x;
        assert less(s[0], s[k + 1]);
      }
      if x in Items(s) - {s[0]} {
        var k :| 0 <= k < |s| && s[k] == x;
        assert s[1..][k - 1] == x;
      }
    }
  }

  /** Where `x` goes in an increasing sequence. */
  function Position<T>(less: Less<T>, s: seq<T>, x: T): (k: nat)
    ensures k <= |s|
  {
    if s == [] || less(x, s[0]) then 0 else 1 + Position(less, s[1..], x)
  }

  lemma {:induction false} PositionFits<T(!new)>(less: Less<T>, s: seq<T>, x: T)
    requires StrictOrder(less) && Increasing(less, s) && x !in s
    ensures var k := Position(less, s, x);
            (forall i :: 0 <= i < k ==> less(s[i], x)) && (forall i :: k <= i < |s| ==> less(x, s[i]))
  {
    if s != [] && !less(x, s[0]) {
      PositionFits(less, s[1..], x);
      forall i | 0 < i < |s| ensures s[i] == s[1..][i - 1] {
      }
    }
  }

  function Inserted<T>(s: seq<T>, k: nat, x: T): (t: seq<T>)
    requires k <= |s|
  {
    s[..k] + [x] + s[k..]
  }

  lemma InsertedItems<T>(s: seq<T>, k: nat, x: T)
    requires k <= |s|
    ensures Items(Inserted(s, k, x)) == Items(s) + {x}
  {
    var t := Inserted(s, k, x);
    forall y | y in Items(s) ensures y in t {
      var i :| 0 <= i < |s| && s[i] == y;
      assert t[if i < k then i else i + 1] == y;
    }
    assert t[k] == x;
  }

  lemma InsertedIncreases<T(!new)>(less: Less<T>, s: seq<T>, k: nat, x: T)
    requires StrictOrder(less) && Increasing(less, s) && k <= |s|
    requires (forall i :: 0 <= i < k ==> less(s[i], x)) && (forall i :: k <= i < |s| ==> less(x, s[i]))
    ensures Increasing(less, Inserted(s, k, x))
  {
    var t := Inserted(s, k, x);
    forall i, j | 0 <= i < j < |t| ensures less(t[i], t[j]) {
      if j < k {
        assert t[i] == s[i] && t[j] == s[j];
      } else if j > k && i < k {
        assert t[i] == s[i] && t[j] == s[j - 1];
      } else if i > k {
        assert t[i] == s[i - 1] && t[j] == s[j - 1];
      }
    }
  }

  lemma InsertKeepsOrder<T(!new)>(less: Less<T>, s: seq<T>, x: T)
    requires StrictOrder(less) && Increasing(less, s) && x !in s
    ensures Enumerates(less, Inserted(s, Position(less, s, x), x), Items(s) + {x})
  {
    var k := Position(less, s, x);
    PositionFits(less, s, x);
    InsertedIncreases(less, s, k, x);
    InsertedItems(s, k, x);
  }

  /** `sorted(items)`. */
  method Sort<T(!new,==)>(less: Less<T>, items: set<T>) returns (s: seq<T>)
    requires StrictOrder(less)
    ensures Enumerates(less, s, items)
  {
    s := [];
    var rest := items;
    while rest != {}
      invariant rest <= items && Enumerates(less, s, items - rest)
      decreases |rest|
    {
      var x :| x in rest;
      assert x !in Items(s);
      InsertKeepsOrder(less, s, x);
      s := Inserted(s, Position(less, s, x), x);
      assert items - (rest - {x}) == (items - rest) + {x};
      rest := rest - {x};
    }
  }

  lemma {:induction false} EnumerationExists<T(!new)>(less: Less<T>, items: set<T>)
    requires StrictOrder(less)
    ensures exists s :: Enumerates(less, s, items)
    decreases |items|
  {
    if items == {} {
      assert Enumerates(less, [], items);
    } else {
      var x :| x in items;
      EnumerationExists(less, items - {x});
      var s :| Enumerates(less, s, items - {x});
      assert x !in Items(s);
      InsertKeepsOrder(less, s, x);
      assert items - {x} + {x} == items;
      assert Enumerates(less, Inserted(s, Position(less, s, x), x), items);
    }
  }

  /** The increasing enumeration of a set. */
  ghost function Enumeration<T(!new)>(less: Less<T>, items: set<T>): (s: seq<T>)
    requires StrictOrder(less)
    ensures Enumerates(less, s, items)
  {
    EnumerationExists(less, items);
    var s :| Enumerates(less, s, items);
    s
  }

  // ---- lexicographic order ----

  predicate LexLess<T(==)>(less: Less<T>, a: seq<T>, b: seq<T>) {
    b != [] && (a == [] || less(a[0], b[0]) || (a[0] == b[0] && LexLess(less, a[1..], b[1..])))
  }

  function Lex<T(==)>(less: Less<T>): (lex: Less<seq<T>>) {
    (a, b) => LexLess(less, a, b)
  }

  /** `a` and `b` agree up to `k`, where `a` ends or has the smaller item. */
  ghost predicate DiffersAt<T>(less: Less<T>, a: seq<T>, b: seq<T>, k: nat) {
    k <= |a| && k < |b| && a[..k] == b[..k] && (k == |a| || less(a[k], b[k]))
  }

  /** The first difference decides, and a proper prefix comes first. */
  lemma {:induction false} LexLessIff<T(!new)>(less: Less<T>, a: seq<T>, b: seq<T>)
    ensures LexLess(less, a, b) <==> exists k: nat :: DiffersAt(less, a, b, k)
    decreases |a|
  {
    if b == [] || a == [] {
      assert b != [] ==> DiffersAt(less, a, b, 0);
    } else {
      LexLessIff(less, a[1..], b[1..]);
      if less(a[0], b[0]) {
        assert DiffersAt(less, a, b, 0);
      } else if LexLess(less, a, b) {
        var k: nat :| DiffersAt(less, a[1..], b[1..], k);
        assert a[..k + 1] == [a[0]] + a[1..][..k] && b[..k + 1] == [b[0]] + b[1..][..k];
        assert DiffersAt(less, a, b, k + 1);
      }
      forall k: nat | DiffersAt(less, a, b, k) && k > 0 ensures LexLess(less, a, b) {
        assert a[0] == a[..k][0] && b[0] == b[..k][0];
        assert a[1..][..k - 1] == a[..k][1..] && b[1..][..k - 1] == b[..k][1..];
        assert DiffersAt(less, a[1..], b[1..], k - 1);
      }
    }
  }

  lemma {:induction false} LexTransitive<T(!new)>(less: Less<T>, a: seq<T>, b: seq<T>, c: seq<T>)
    requires StrictOrder(less) && LexLess(less, a, b) && LexLess(less, b, c)
    ensures LexLess(less, a, c)
  {
    if a != [] && a[0] == b[0] && b[0] == c[0] {
      LexTransitive(less, a[1..], b[1..], c[1..]);
    }
  }

  lemma {:induction false} LexTotal<T(!new)>(less: Less<T>, a: seq<T>, b: seq<T>)
    requires StrictOrder(less)
    ensures LexLess(less, a, b) || a == b || LexLess(less, b, a)
    ensures !LexLess(less, a, a)
  {
    if a != [] {
      LexTotal(less, a[1..], if b == [] then [] else b[1..]);
      Uncons(a);
      if b != [] {
        Uncons(b);
      }
    }
  }

  lemma LexIsStrictOrder<T(!new)>(less: Less<T>)
    requires StrictOrder(less)
    ensures StrictOrder(Lex(less))
  {
    var lex := Lex(less);
    forall x ensures !lex(x, x) {
      LexTotal(less, x, x);
    }
    forall x, y, z | lex(x, y) && lex(y, z) ensures lex(x, z) {
      LexTransitive(less, x, y, z);
    }
    forall x, y ensures lex(x, y) || x == y || lex(y, x) {
      LexTotal(less, x, y);
    }
  }

  predicate CharLess(a: char, b: char) {
    a < b
  }

  /** Strings compare by code point, paths part by part. */
  function PathLess(): (less: Less<seq<string>>) {
    Lex(Lex(CharLess))
  }

  lemma PathLessIsStrictOrder()
    ensures StrictOrder(PathLess())
  {
    assert StrictOrder(CharLess);
    LexIsStrictOrder(CharLess);
    LexIsStrictOrder(Lex(CharLess));
  }
}
