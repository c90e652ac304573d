/** Sorting, and the orders the exposition is sorted by. */
module Ordering {
  import opened Basics

  ghost predicate StrictOrder<T(!new)>(less: (T, T) -> bool)
  {
    && (forall a :: !less(a, a))
    && (forall a, b, c :: less(a, b) && less(b, c) ==> less(a, c))
  }

  ghost predicate Total<T(!new)>(less: (T, T) -> bool)
  {
    forall a, b :: a == b || less(a, b) || less(b, a)
  }

  ghost predicate Ascending<T>(less: (T, T) -> bool, s: seq<T>)
  {
    forall i, j :: 0 <= i < j < |s| ==> less(s[i], s[j])
  }

  ghost predicate SameMembers<T>(a: seq<T>, b: seq<T>)
  {
    (forall i :: 0 <= i < |a| ==> a[i] in b) && (forall i :: 0 <= i < |b| ==> b[i] in a)
  }

  // ---------------------------------------------------------------- sorting

  function Insert<T>(less: (T, T) -> bool, x: T, s: seq<T>): (r: seq<T>)
    ensures |r| == |s| + 1
  {
    if s == [] then [x]
    else if less(x, s[0]) then [x] + s
    else [s[0]] + Insert(less, x, s[1..])
  }

  function Sort<T>(less: (T, T) -> bool, s: seq<T>): (r: seq<T>)
    ensures |r| == |s|
  {
    if s == [] then [] else Insert(less, s[|s| - 1], Sort(less, s[..|s| - 1]))
  }

  lemma {:induction false} InsertMembers<T>(less: (T, T) -> bool, x: T, s: seq<T>, y: T)
    ensures y in Insert(less, x, s) <==> y == x || y in s
  {
    if s != [] && !less(x, s[0]) {
      InsertMembers(less, x, s[1..], y);
      assert s == [s[0]] + s[1..];
    }
  }

  lemma {:induction false} InsertAscends<T(!new)>(less: (T, T) -> bool, x: T, s: seq<T>)
    requires StrictOrder(less) && Ascending(less, s)
    requires forall y :: y in s ==> less(x, y) || less(y, x)
    ensures Ascending(less, Insert(less, x, s))
  {
    if s != [] {
      if less(x, s[0]) {
        forall j | 1 <= j < |s|
          ensures less(x, s[j])
        {
          assert less(s[0], s[j]);
        }
      } else {
        var rest := Insert(less, x, s[1..]);
        InsertAscends(less, x, s[1..]);
        forall j | 0 <= j < |rest|
          ensures less(s[0], rest[j])
        {
          InsertMembers(less, x, s[1..], rest[j]);
        }
      }
    }
  }

  lemma {:induction false} SortMembers<T>(less: (T, T) -> bool, s: seq<T>, y: T)
    ensures y in Sort(less, s) <==> y in s
  {
    if s != [] {
      SortMembers(less, s[..|s| - 1], y);
      InsertMembers(less, s[|s| - 1], Sort(less, s[..|s| - 1]), y);
    }
  }

  /** Sorting puts comparable elements in order and keeps them all. */
  lemma {:induction false} SortSorts<T(!new)>(less: (T, T) -> bool, s: seq<T>)
    requires StrictOrder(less)
    requires forall i, j :: 0 <= i < j < |s| ==> less(s[i], s[j]) || less(s[j], s[i])
    ensures Ascending(less, Sort(less, s)) && SameMembers(Sort(less, s), s)
  {
    forall y
      ensures y in Sort(less, s) <==> y in s
    {
      SortMembers(less, s, y);
    }
    if s != [] {
      var front, x := s[..|s| - 1], s[|s| - 1];
      SortSorts(less, front);
      forall y | y in Sort(less, front)
        ensures less(x, y) || less(y, x)
      {
        SortMembers(less, front, y);
        var i :| 0 <= i < |front| && front[i] == y;
        assert s[i] == y;
      }
      InsertAscends(less, x, Sort(less, front));
    }
  }

  /** A sequence in strict order is determined by its members. */
  lemma {:induction false} AscendingIsUnique<T(!new)>(less: (T, T) -> bool, a: seq<T>, b: seq<T>)
    requires StrictOrder(less) && Ascending(less, a) && Ascending(less, b) && SameMembers(a, b)
    ensures a == b
  {
    if a != [] {
      FirstIsLeast(less, a, b);
      FirstIsLeast(less, b, a);
      TailMembers(less, a, b);
      TailMembers(less, b, a);
      AscendingIsUnique(less, a[1..], b[1..]);
      assert a == [a[0]] + a[1..] && b == [b[0]] + b[1..];
    } else if b != [] {
      FirstIsLeast(less, b, a);
    }
  }

  lemma FirstIsLeast<T(!new)>(less: (T, T) -> bool, a: seq<T>, b: seq<T>)
    requires StrictOrder(less) && Ascending(less, a) && SameMembers(a, b) && a != []
    ensures b != [] && (a[0] == b[0] || less(a[0], b[0]))
  {
    assert a[0] in b;
    assert b[0] in a;
  }

  lemma TailMembers<T(!new)>(less: (T, T) -> bool, a: seq<T>, b: seq<T>)
    requires StrictOrder(less) && Ascending(less, a) && SameMembers(a, b)
    requires a != [] && b != [] && a[0] == b[0]
    ensures forall i :: 0 <= i < |a[1..]| ==> a[1..][i] in b[1..]
  {
    forall i | 0 <= i < |a[1..]|
      ensures a[1..][i] in b[1..]
    {
      assert less(a[0], a[i + 1]);
      var k :| 0 <= k < |b| && b[k] == a[i + 1];
      assert b[1..][k - 1] == b[k];
    }
  }

  // ----------------------------------------------------- lexicographic order

  /** The first difference decides; a proper prefix comes first. */
  predicate Lex<T(==)>(less: (T, T) -> bool, a: seq<T>, b: seq<T>)
  {
    b != [] && (a == [] || (if a[0] == b[0] then Lex(less, a[1..], b[1..]) else less(a[0], b[0])))
  }

  lemma {:induction false} LexIrreflexive<T(!new)>(less: (T, T) -> bool, a: seq<T>)
    requires StrictOrder(less)
    ensures !Lex(less, a, a)
  {
    if a != [] {
      LexIrreflexive(less, a[1..]);
    }
  }

  lemma {:induction false} LexTransitive<T(!new)>(less: (T, T) -> bool, a: seq<T>, b: seq<T>, c: seq<T>)
    requires StrictOrder(less) && Lex(less, a, b) && Lex(less, b, c)
    ensures Lex(less, a, c)
  {
    if a != [] && a[0] == b[0] && b[0] == c[0] {
      LexTransitive(less, a[1..], b[1..], c[1..]);
    }
  }

  lemma {:induction false} LexTotal<T(!new)>(less: (T, T) -> bool, a: seq<T>, b: seq<T>)
    requires Total(less)
    ensures a == b || Lex(less, a, b) || Lex(less, b, a)
  {
    if a != [] && b != [] && a[0] == b[0] {
      LexTotal(less, a[1..], b[1..]);
      assert a == [a[0]] + a[1..] && b == [b[0]] + b[1..];
    }
  }

  /** A strict total order on elements gives one on sequences. */
  lemma LexIsStrictTotal<T(!new)>(less: (T, T) -> bool)
    requires StrictOrder(less) && Total(less)
    ensures StrictOrder((a: seq<T>, b: seq<T>) => Lex(less, a, b)) && Total((a: seq<T>, b: seq<T>) => Lex(less, a, b))
  {
    forall a: seq<T>
      ensures !Lex(less, a, a)
    {
      LexIrreflexive(less, a);
    }
    forall a: seq<T>, b: seq<T>, c: seq<T> | Lex(less, a, b) && Lex(less, b, c)
      ensures Lex(less, a, c)
    {
      LexTransitive(less, a, b, c);
    }
    forall a: seq<T>, b: seq<T>
      ensures a == b || Lex(less, a, b) || Lex(less, b, a)
    {
      LexTotal(less, a, b);
    }
  }

  predicate CharLess(a: char, b: char)
  {
    a < b
  }

  predicate StringLess(a: string, b: string)
  {
    Lex(CharLess, a, b)
  }

  predicate LabelLess(a: Label, b: Label)
  {
    if a.name == b.name then StringLess(a.value, b.value) else StringLess(a.name, b.name)
  }

  /** Label by label, names before values. */
  predicate LabelsLess(a: Labels, b: Labels)
  {
    Lex(LabelLess, a, b)
  }

  lemma StringOrder()
    ensures StrictOrder(StringLess) && Total(StringLess)
  {
    LexIsStrictTotal(CharLess);
    forall a, b
      ensures StringLess(a, b) <==> ((x: string, y: string) => Lex(CharLess, x, y))(a, b)
    {}
  }

  lemma LabelsOrder()
    ensures StrictOrder(LabelsLess) && Total(LabelsLess)
  {
    StringOrder();
    LabelOrder();
    LexIsStrictTotal(LabelLess);
    forall a, b
      ensures LabelsLess(a, b) <==> ((x: Labels, y: Labels) => Lex(LabelLess, x, y))(a, b)
    {}
  }

  lemma LabelOrder()
    requires StrictOrder(StringLess) && Total(StringLess)
    ensures StrictOrder(LabelLess) && Total(LabelLess)
  {
    hide StringLess;
  }

  // ---------------------------------------------------- the orders, written out

  /** The first place at which two sequences differ. */
  ghost predicate DiffersAt<T>(a: seq<T>, b: seq<T>, i: nat)
  {
    i < |a| && i < |b| && a[..i] == b[..i] && a[i] != b[i]
  }

  /** A proper prefix comes first; otherwise the first difference decides. */
  lemma {:induction false} LexByFirstDifference<T>(less: (T, T) -> bool, a: seq<T>, b: seq<T>)
    ensures Lex(less, a, b) <==> a < b || exists i: nat :: DiffersAt(a, b, i) && less(a[i], b[i])
  {
    if a != [] && b != [] {
      assert a == [a[0]] + a[1..] && b == [b[0]] + b[1..];
      if a[0] == b[0] {
        LexByFirstDifference(less, a[1..], b[1..]);
        assert a < b <==> a[1..] < b[1..];
        forall i: nat
          ensures DiffersAt(a[1..], b[1..], i) <==> DiffersAt(a, b, i + 1)
        {
          if i < |a[1..]| && i < |b[1..]| {
            assert a[..i + 1] == [a[0]] + a[1..][..i] && b[..i + 1] == [b[0]] + b[1..][..i];
          }
        }
        DifferLater(less, a, b);
      } else {
        assert !(a < b);
        if less(a[0], b[0]) {
          assert DiffersAt(a, b, 0);
        }
        forall i: nat | DiffersAt(a, b, i)
          ensures i == 0
        {
          if i > 0 {
            SameFirst(a, b, i);
          }
        }
      }
    }
  }

  lemma SameFirst<T>(a: seq<T>, b: seq<T>, i: nat)
    requires 0 < i <= |a| && i <= |b| && a[..i] == b[..i]
    ensures a[0] == b[0]
  {
    assert a[..i][0] == a[0] && b[..i][0] == b[0];
  }

  lemma DifferLater<T>(less: (T, T) -> bool, a: seq<T>, b: seq<T>)
    requires a != [] && b != [] && a[0] == b[0]
    requires forall i: nat :: DiffersAt(a[1..], b[1..], i) <==> DiffersAt(a, b, i + 1)
    ensures (exists i: nat :: DiffersAt(a[1..], b[1..], i) && less(a[1..][i], b[1..][i]))
       <==> (exists i: nat :: DiffersAt(a, b, i) && less(a[i], b[i]))
  {
    if i: nat :| DiffersAt(a[1..], b[1..], i) && less(a[1..][i], b[1..][i]) {
      assert DiffersAt(a, b, i + 1) && less(a[i + 1], b[i + 1]);
    }
    if i: nat :| DiffersAt(a, b, i) && less(a[i], b[i]) {
      assert i > 0;
      assert DiffersAt(a[1..], b[1..], i - 1) && less(a[1..][i - 1], b[1..][i - 1]);
    }
  }

  /** Strings are ordered by their first different character, a prefix first. */
  lemma StringsInOrder(a: string, b: string)
    ensures StringLess(a, b) <==> a < b || exists i: nat :: DiffersAt(a, b, i) && a[i] < b[i]
  {
    LexByFirstDifference(CharLess, a, b);
    hide DiffersAt, Lex;
  }

  /** Labels are ordered by name and then by value. */
  lemma NameThenValue(a: Label, b: Label)
    ensures LabelLess(a, b) <==> StringLess(a.name, b.name) || (a.name == b.name && StringLess(a.value, b.value))
  {
    StringOrder();
    hide StringLess;
  }

  /** Label sets are ordered by their first different label, by name and then by
      value, a prefix first. */
  lemma LabelsInOrder(a: Labels, b: Labels)
    ensures LabelsLess(a, b) <==>
      || a < b
      || exists i: nat :: DiffersAt(a, b, i) && (StringLess(a[i].name, b[i].name) || (a[i].name == b[i].name && StringLess(a[i].value, b[i].value)))
  {
    LexByFirstDifference(LabelLess, a, b);
    forall x, y
      ensures LabelLess(x, y) <==> StringLess(x.name, y.name) || (x.name == y.name && StringLess(x.value, y.value))
    {
      NameThenValue(x, y);
    }
    hide DiffersAt, Lex, StringLess, LabelLess;
  }
}
