/** Python's `list.sort(key=...)` and `sorted(...)` are library calls for the modelled code.  This
    module gives their specification function, a stable sort by a total preorder, and the facts the
    other modules use: contents, order, stability, and uniqueness of a strictly ordered list. */
module Sorting {

  ghost predicate TotalPreorder<T(!new)>(leq: (T, T) -> bool) {
    && (forall a, b :: leq(a, b) || leq(b, a))
    && (forall a, b, c :: leq(a, b) && leq(b, c) ==> leq(a, c))
  }

  ghost predicate SortedBy<T>(s: seq<T>, leq: (T, T) -> bool) {
    forall i, j :: 0 <= i < j < |s| ==> leq(s[i], s[j])
  }

  /** Every earlier element precedes every later one; used for strict orders. */
  ghost predicate Chain<T>(s: seq<T>, lt: (T, T) -> bool) {
    forall i, j :: 0 <= i < j < |s| ==> lt(s[i], s[j])
  }

  /** Order by `leq`, breaking ties by `tie`. */
  function Lex<T>(leq: (T, T) -> bool, tie: (T, T) -> bool): (T, T) -> bool {
    (a: T, b: T) => leq(a, b) && (leq(b, a) ==> tie(a, b))
  }

  function Insert<T>(x: T, s: seq<T>, leq: (T, T) -> bool): seq<T> {
    if s == [] || leq(x, s[0]) then [x] + s else [s[0]] + Insert(x, s[1..], leq)
  }

  /** The stable sort: of two equivalent elements the earlier one stays in front. */
  function Sort<T>(s: seq<T>, leq: (T, T) -> bool): (r: seq<T>) {
    if s == [] then [] else Insert(s[0], Sort(s[1..], leq), leq)
  }

  lemma {:induction false} InsertContents<T>(x: T, s: seq<T>, leq: (T, T) -> bool)
    ensures multiset(Insert(x, s, leq)) == multiset{x} + multiset(s)
    ensures |Insert(x, s, leq)| == |s| + 1
  {
    if s == [] || leq(x, s[0]) {
    } else {
      InsertContents(x, s[1..], leq);
      assert s == [s[0]] + s[1..];
    }
  }

  lemma {:induction false} SortContents<T>(s: seq<T>, leq: (T, T) -> bool)
    ensures multiset(Sort(s, leq)) == multiset(s)
    ensures |Sort(s, leq)| == |s|
    ensures forall x :: x in Sort(s, leq) <==> x in s
  {
    if s != [] {
      SortContents(s[1..], leq);
      InsertContents(s[0], Sort(s[1..], leq), leq);
      assert s == [s[0]] + s[1..];
    }
    assert forall x :: x in Sort(s, leq) <==> x in multiset(Sort(s, leq));
    assert forall x :: x in s <==> x in multiset(s);
  }

  /** Inserting keeps a list that is ordered by `leq` with ties broken by `tie`, when the new element
      precedes all others in the tie order. */
  lemma {:induction false} InsertStable<T(!new)>(x: T, s: seq<T>, leq: (T, T) -> bool, tie: (T, T) -> bool)
    requires TotalPreorder(leq)
    requires Chain(s, Lex(leq, tie))
    requires forall y :: y in s ==> tie(x, y)
    ensures Chain(Insert(x, s, leq), Lex(leq, tie))
  {
    var r := Insert(x, s, leq);
    var lex := Lex(leq, tie);
    if s == [] {
    } else if leq(x, s[0]) {
      forall j | 1 <= j < |r| ensures lex(r[0], r[j]) {
        assert r[j] == s[j - 1];
        assert r[j] in s;
        assert j == 1 || lex(s[0], s[j - 1]);
      }
    } else {
      assert forall y :: y in s[1..] ==> y in s;
      InsertStable(x, s[1..], leq, tie);
      var t := Insert(x, s[1..], leq);
      InsertContents(x, s[1..], leq);
      forall j | 1 <= j < |r| ensures lex(r[0], r[j]) {
        assert r[j] == t[j - 1];
        assert t[j - 1] in multiset(t);
        if t[j - 1] != x {
          assert t[j - 1] in multiset(s[1..]);
          assert t[j - 1] in s[1..];
          var k :| 0 <= k < |s[1..]| && s[1..][k] == t[j - 1];
          assert lex(s[0], s[k + 1]);
        }
      }
    }
  }

  /** Stability: if the input already lists its elements in the order `tie` (for instance, by
      position), the sorted list is ordered by `leq` with ties in that order. */
  lemma {:induction false} SortStable<T(!new)>(s: seq<T>, leq: (T, T) -> bool, tie: (T, T) -> bool)
    requires TotalPreorder(leq)
    requires Chain(s, tie)
    ensures Chain(Sort(s, leq), Lex(leq, tie))
    ensures SortedBy(Sort(s, leq), leq)
  {
    if s != [] {
      SortStable(s[1..], leq, tie);
      SortContents(s[1..], leq);
      forall y | y in Sort(s[1..], leq) ensures tie(s[0], y) {
        var k :| 0 <= k < |s[1..]| && s[1..][k] == y;
        assert tie(s[0], s[k + 1]);
      }
      InsertStable(s[0], Sort(s[1..], leq), leq, tie);
    }
    var r := Sort(s, leq);
    var lex := Lex(leq, tie);
    forall i, j | 0 <= i < j < |r| ensures leq(r[i], r[j]) {
      assert lex(r[i], r[j]);
    }
  }

  ghost predicate StrictOrder<T(!new)>(lt: (T, T) -> bool) {
    forall a, b :: lt(a, b) ==> !lt(b, a)
  }

  /** A strictly ordered list is determined by its set of elements. */
  lemma {:induction false} ChainUnique<T(!new)>(a: seq<T>, b: seq<T>, lt: (T, T) -> bool)
    requires StrictOrder(lt)
    requires Chain(a, lt) && Chain(b, lt)
    requires forall x :: x in a <==> x in b
    ensures a == b
  {
    assert a != [] ==> a[0] in a;
    assert b != [] ==> b[0] in b;
    if a != [] && b != [] {
      var i :| 0 <= i < |b| && b[i] == a[0];
      var j :| 0 <= j < |a| && a[j] == b[0];
      forall x ensures x in a[1..] <==> x in b[1..] {
        TailMembers(a, lt, x);
        TailMembers(b, lt, x);
      }
      ChainUnique(a[1..], b[1..], lt);
      assert a == [a[0]] + a[1..] && b == [b[0]] + b[1..];
    }
  }

  lemma TailMembers<T(!new)>(s: seq<T>, lt: (T, T) -> bool, x: T)
    requires StrictOrder(lt) && Chain(s, lt) && s != []
    ensures x in s[1..] <==> x in s && x != s[0]
  {
    if x in s[1..] {
      var k :| 0 <= k < |s[1..]| && s[1..][k] == x;
      assert lt(s[0], s[k + 1]);
    }
    if x in s && x != s[0] {
      var k :| 0 <= k < |s| && s[k] == x;
      assert s[1..][k - 1] == x;
    }
  }

  function Map<A, B>(f: A -> B, s: seq<A>): (r: seq<B>)
    ensures |r| == |s|
    ensures forall i :: 0 <= i < |s| ==> r[i] == f(s[i])
  {
    seq(|s|, i requires 0 <= i < |s| => f(s[i]))
  }

  /** Sorting images by a key is sorting the originals by the key of the image. */
  lemma {:induction false} SortMap<A(!new), B>(f: A -> B, s: seq<A>, leq: (B, B) -> bool, leqA: (A, A) -> bool)
    requires forall a, b :: leqA(a, b) == leq(f(a), f(b))
    ensures Sort(Map(f, s), leq) == Map(f, Sort(s, leqA))
  {
    if s == [] {
      assert Map(f, s) == [];
    } else {
      assert Map(f, s)[1..] == Map(f, s[1..]);
      SortMap(f, s[1..], leq, leqA);
      InsertMap(f, s[0], Sort(s[1..], leqA), leq, leqA);
    }
  }

  lemma {:induction false} InsertMap<A(!new), B>(f: A -> B, x: A, s: seq<A>, leq: (B, B) -> bool, leqA: (A, A) -> bool)
    requires forall a, b :: leqA(a, b) == leq(f(a), f(b))
    ensures Insert(f(x), Map(f, s), leq) == Map(f, Insert(x, s, leqA))
  {
    if s == [] || leqA(x, s[0]) {
    } else {
      assert Map(f, s)[1..] == Map(f, s[1..]);
      InsertMap(f, x, s[1..], leq, leqA);
    }
  }

  // ----- the order of Python strings: lexicographic by code point -----

  predicate StringLeq(a: string, b: string) {
    a == [] || (b != [] && (a[0] < b[0] || (a[0] == b[0] && StringLeq(a[1..], b[1..]))))
  }

  lemma SameFirst(x: char, s: string, t: string)
    ensures StringLeq([x] + s, [x] + t) <==> StringLeq(s, t)
  {
    assert ([x] + s)[1..] == s && ([x] + t)[1..] == t;
  }

  lemma FirstOut(p: string, a: string)
    requires p != ""
    ensures [p[0]] + (p[1..] + a) == p + a
  {}

  /** A prefix comes before what it is a prefix of. */
  lemma {:induction false} PrefixFirst(p: string, s: string)
    ensures StringLeq(p, p + s)
    ensures StringLeq(p + s, p) ==> s == ""
  {
    if p != "" {
      PrefixFirst(p[1..], s);
      SameFirst(p[0], p[1..], p[1..] + s);
      SameFirst(p[0], p[1..] + s, p[1..]);
      FirstOut(p, s);
      FirstOut(p, "");
      assert p[1..] + "" == p[1..] && p + "" == p;
    }
  }

  /** The first difference decides. */
  lemma {:induction false} DifferenceDecides(p: string, a: string, b: string)
    requires a != "" && b != "" && a[0] != b[0]
    ensures StringLeq(p + a, p + b) <==> a[0] < b[0]
  {
    if p == "" {
      assert p + a == a && p + b == b;
      assert StringLeq(a, b) <==> a[0] < b[0];
    } else {
      DifferenceDecides(p[1..], a, b);
      SameFirst(p[0], p[1..] + a, p[1..] + b);
      FirstOut(p, a);
      FirstOut(p, b);
    }
  }

  lemma {:induction false} StringLeqTotal(a: string, b: string)
    ensures StringLeq(a, b) || StringLeq(b, a)
    ensures StringLeq(a, b) && StringLeq(b, a) ==> a == b
  {
    if a != [] && b != [] && a[0] == b[0] {
      StringLeqTotal(a[1..], b[1..]);
      assert a == [a[0]] + a[1..] && b == [b[0]] + b[1..];
    }
  }

  lemma {:induction false} StringLeqTransitive(a: string, b: string, c: string)
    requires StringLeq(a, b) && StringLeq(b, c)
    ensures StringLeq(a, c)
  {
    if a != [] && a[0] == b[0] == c[0] {
      StringLeqTransitive(a[1..], b[1..], c[1..]);
    }
  }

  lemma StringOrder()
    ensures TotalPreorder(StringLeq)
    ensures forall a, b :: StringLeq(a, b) && StringLeq(b, a) ==> a == b
  {
    forall a: string, b: string
      ensures StringLeq(a, b) || StringLeq(b, a)
      ensures StringLeq(a, b) && StringLeq(b, a) ==> a == b
    {
      StringLeqTotal(a, b);
    }
    forall a: string, b: string, c: string | StringLeq(a, b) && StringLeq(b, c)
      ensures StringLeq(a, c)
    {
      StringLeqTransitive(a, b, c);
    }
  }

  // ----- sorting a set of strings -----

  ghost predicate StringLt(a: string, b: string) { StringLeq(a, b) && a != b }

  /** The ids of a set in order, as `sorted` lists them. */
  ghost predicate SortedIds(ids: set<string>, s: seq<string>) {
    Chain(s, StringLt) && forall x :: x in s <==> x in ids
  }

  lemma {:induction false} SortedIdsSize(ids: set<string>, s: seq<string>)
    requires SortedIds(ids, s)
    ensures |s| == |ids|
  {
    if s == [] {
      assert ids == {};
    } else {
      var rest := ids - {s[0]};
      forall x ensures x in s[1..] <==> x in rest {
        if x in s[1..] {
          var k :| 0 <= k < |s[1..]| && s[1..][k] == x;
          assert StringLt(s[0], s[k + 1]);
        }
        if x in rest {
          var k :| 0 <= k < |s| && s[k] == x;
          assert s[1..][k - 1] == x;
        }
      }
      assert s[0] in s;
      SortedIdsSize(rest, s[1..]);
    }
  }

  /** There is only one way to sort a set of ids. */
  lemma SortedIdsUnique(ids: set<string>, s: seq<string>, t: seq<string>)
    requires SortedIds(ids, s) && SortedIds(ids, t)
    ensures s == t
  {
    StringOrder();
    ChainUnique(s, t, StringLt);
  }

  lemma {:induction false} SortedIdsExist(ids: set<string>) returns (s: seq<string>)
    ensures SortedIds(ids, s)
    decreases |ids|
  {
    s := [];
    if ids != {} {
      var x :| x in ids;
      var t := SortedIdsExist(ids - {x});
      StringOrder();
      InsertSorted(ids - {x}, t, x);
      s := Insert(x, t, StringLeq);
      assert ids - {x} + {x} == ids;
    }
  }

  method SortSet(ids: set<string>) returns (s: seq<string>)
    ensures SortedIds(ids, s)
  {
    s := [];
    var rest := ids;
    StringOrder();
    while rest != {}
      invariant rest <= ids && SortedIds(ids - rest, s)
      decreases |rest|
    {
      var x :| x in rest;
      InsertSorted(ids - rest, s, x);
      s := Insert(x, s, StringLeq);
      rest := rest - {x};
      assert ids - rest == ids - (rest + {x}) + {x};
    }
    assert ids - rest == ids;
  }

  lemma InsertSorted(ids: set<string>, s: seq<string>, x: string)
    requires SortedIds(ids, s) && x !in ids && TotalPreorder(StringLeq)
    requires forall a, b :: StringLeq(a, b) && StringLeq(b, a) ==> a == b
    ensures SortedIds(ids + {x}, Insert(x, s, StringLeq))
  {
    var differ := (a: string, b: string) => a != b;
    var r := Insert(x, s, StringLeq);
    InsertStable(x, s, StringLeq, differ);
    InsertContents(x, s, StringLeq);
    forall y ensures y in r <==> y in ids + {x} {
      assert y in r <==> y in multiset(r);
      assert y in s <==> y in multiset(s);
    }
    forall i, j | 0 <= i < j < |r| ensures StringLt(r[i], r[j]) {
      assert Lex(StringLeq, differ)(r[i], r[j]);
    }
  }
}
