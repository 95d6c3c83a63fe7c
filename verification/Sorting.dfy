/** A stable sort, and when its outcome does not depend on the input's order. */
module Sorting {

  ghost predicate IsTotal<T(!new)>(leq: (T, T) -> bool) {
    && (forall x, y :: leq(x, y) || leq(y, x))
    && (forall x, y, z :: leq(x, y) && leq(y, z) ==> leq(x, z))
  }

  /** In front of the first element not below it: equal keys keep their order. */
  function Insert<T(!new)>(x: T, s: seq<T>, leq: (T, T) -> bool): seq<T> {
    if s == [] || leq(x, s[0]) then [x] + s else [s[0]] + Insert(x, s[1..], leq)
  }

  /** Python's sorted(items, key=...), `leq` comparing the keys. */
  function Sort<T(!new)>(s: seq<T>, leq: (T, T) -> bool): seq<T> {
    if s == [] then [] else Insert(s[0], Sort(s[1..], leq), leq)
  }

  predicate IsSorted<T(!new)>(s: seq<T>, leq: (T, T) -> bool) {
    |s| < 2 || (leq(s[0], s[1]) && IsSorted(s[1..], leq))
  }

  lemma {:induction false} InsertSorts<T(!new)>(x: T, s: seq<T>, leq: (T, T) -> bool)
    requires IsTotal(leq) && IsSorted(s, leq)
    ensures IsSorted(Insert(x, s, leq), leq) && multiset(Insert(x, s, leq)) == multiset(s) + multiset{x}
  {
    if s != [] {
      assert s == [s[0]] + s[1..];
      if !leq(x, s[0]) {
        InsertSorts(x, s[1..], leq);
        assert leq(s[0], x);
      }
    }
  }

  /** Sorted, and the same entries. */
  lemma {:induction false} SortSorts<T(!new)>(s: seq<T>, leq: (T, T) -> bool)
    requires IsTotal(leq)
    ensures IsSorted(Sort(s, leq), leq) && multiset(Sort(s, leq)) == multiset(s)
  {
    if s != [] {
      SortSorts(s[1..], leq);
      InsertSorts(s[0], Sort(s[1..], leq), leq);
      HeadAndTail(s);
    }
  }

  lemma HeadAndTail<T(!new)>(s: seq<T>)
    requires s != []
    ensures multiset(s) == multiset(s[1..]) + multiset{s[0]}
  {
    assert s == [s[0]] + s[1..];
  }

  /** The entries that tie with `x`, in order. */
  function Ties<T(!new)>(s: seq<T>, x: T, leq: (T, T) -> bool): seq<T> {
    if s == [] then [] else (if leq(x, s[0]) && leq(s[0], x) then [s[0]] else []) + Ties(s[1..], x, leq)
  }

  lemma {:induction false} InsertIsStable<T(!new)>(y: T, s: seq<T>, x: T, leq: (T, T) -> bool)
    requires IsTotal(leq)
    ensures Ties(Insert(y, s, leq), x, leq) == Ties([y] + s, x, leq)
  {
    assert ([y] + s)[1..] == s;
    if s != [] && !leq(y, s[0]) {
      var more := Insert(y, s[1..], leq);
      InsertIsStable(y, s[1..], x, leq);
      assert ([s[0]] + more)[1..] == more && ([y] + s[1..])[1..] == s[1..];
      assert Ties(Insert(y, s, leq), x, leq) == (if leq(x, s[0]) && leq(s[0], x) then [s[0]] else []) + Ties(more, x, leq);
    }
  }

  /** Entries that tie stay in the order they came in. */
  lemma {:induction false} SortIsStable<T(!new)>(s: seq<T>, x: T, leq: (T, T) -> bool)
    requires IsTotal(leq)
    ensures Ties(Sort(s, leq), x, leq) == Ties(s, x, leq)
  {
    if s != [] {
      SortIsStable(s[1..], x, leq);
      InsertIsStable(s[0], Sort(s[1..], leq), x, leq);
      var sorted := Sort(s[1..], leq);
      assert ([s[0]] + sorted)[1..] == sorted;
    }
  }

  // ---------------------------------------------------------- what is shown

  /** The lines of the entries, in order. */
  function Shown<T(!new)>(s: seq<T>, line: T -> string): (r: seq<string>)
    ensures |r| == |s|
  {
    if s == [] then [] else [line(s[0])] + Shown(s[1..], line)
  }

  /** Element by element: keys equal and lines equal. */
  ghost predicate Alike<T(!new)>(s: seq<T>, t: seq<T>, leq: (T, T) -> bool, line: T -> string) {
    |s| == |t| && (s == [] || (leq(s[0], t[0]) && leq(t[0], s[0]) && line(s[0]) == line(t[0]) && Alike(s[1..], t[1..], leq, line)))
  }

  lemma {:induction false} AlikeShown<T(!new)>(s: seq<T>, t: seq<T>, leq: (T, T) -> bool, line: T -> string)
    requires Alike(s, t, leq, line)
    ensures Shown(s, line) == Shown(t, line)
  {
    if s != [] { AlikeShown(s[1..], t[1..], leq, line); }
  }

  lemma {:induction false} AlikeItself<T(!new)>(s: seq<T>, leq: (T, T) -> bool, line: T -> string)
    requires IsTotal(leq)
    ensures Alike(s, s, leq, line)
  {
    if s != [] { AlikeItself(s[1..], leq, line); }
  }

  lemma {:induction false} AlikeThen<T(!new)>(s: seq<T>, t: seq<T>, u: seq<T>, leq: (T, T) -> bool, line: T -> string)
    requires IsTotal(leq) && Alike(s, t, leq, line) && Alike(t, u, leq, line)
    ensures Alike(s, u, leq, line)
  {
    if s != [] { AlikeThen(s[1..], t[1..], u[1..], leq, line); }
  }

  lemma {:induction false} InsertAlike<T(!new)>(x: T, s: seq<T>, t: seq<T>, leq: (T, T) -> bool, line: T -> string)
    requires IsTotal(leq) && Alike(s, t, leq, line)
    ensures Alike(Insert(x, s, leq), Insert(x, t, leq), leq, line)
  {
    if s != [] {
      if leq(x, s[0]) {
        assert leq(x, t[0]);
        assert ([x] + s)[1..] == s && ([x] + t)[1..] == t;
      } else {
        assert !leq(x, t[0]);
        InsertAlike(x, s[1..], t[1..], leq, line);
        var a, b := Insert(x, s[1..], leq), Insert(x, t[1..], leq);
        assert ([s[0]] + a)[1..] == a && ([t[0]] + b)[1..] == b;
      }
    } else {
      AlikeItself([x], leq, line);
    }
  }

  /** Entries that tie must read the same. */
  ghost predicate TiesAgree<T(!new)>(s: seq<T>, leq: (T, T) -> bool, line: T -> string) {
    forall x, y :: x in s && y in s && leq(x, y) && leq(y, x) ==> line(x) == line(y)
  }

  lemma {:induction false} InsertsCommute<T(!new)>(x: T, y: T, s: seq<T>, leq: (T, T) -> bool, line: T -> string)
    requires IsTotal(leq) && (leq(x, y) && leq(y, x) ==> line(x) == line(y))
    ensures Alike(Insert(x, Insert(y, s, leq), leq), Insert(y, Insert(x, s, leq), leq), leq, line)
  {
    var a, b := Insert(x, Insert(y, s, leq), leq), Insert(y, Insert(x, s, leq), leq);
    if s != [] && !leq(x, s[0]) && !leq(y, s[0]) {
      InsertsCommute(x, y, s[1..], leq, line);
      var p, q := Insert(y, s[1..], leq), Insert(x, s[1..], leq);
      assert Insert(y, s, leq) == [s[0]] + p && Insert(x, s, leq) == [s[0]] + q;
      assert ([s[0]] + p)[1..] == p && ([s[0]] + q)[1..] == q;
      assert a == [s[0]] + Insert(x, p, leq) && b == [s[0]] + Insert(y, q, leq);
      assert a[1..] == Insert(x, p, leq) && b[1..] == Insert(y, q, leq);
    } else {
      InsertsAtFront(x, y, s, leq, line);
    }
  }

  /** One of the two goes first. */
  lemma InsertsAtFront<T(!new)>(x: T, y: T, s: seq<T>, leq: (T, T) -> bool, line: T -> string)
    requires IsTotal(leq) && (leq(x, y) && leq(y, x) ==> line(x) == line(y))
    requires s == [] || leq(x, s[0]) || leq(y, s[0])
    ensures Alike(Insert(x, Insert(y, s, leq), leq), Insert(y, Insert(x, s, leq), leq), leq, line)
  {
    if leq(x, y) && leq(y, x) {
      assert s == [] || (leq(x, s[0]) && leq(y, s[0]));
      TwoInFront(x, y, s, leq);
      TwoInFront(y, x, s, leq);
      AlikeItself(s, leq, line);
      assert ([x] + ([y] + s))[1..] == [y] + s && ([y] + ([x] + s))[1..] == [x] + s;
      assert ([y] + s)[1..] == s && ([x] + s)[1..] == s;
    } else if leq(x, y) {
      FirstOfTwo(x, y, s, leq);
      AlikeItself([x] + Insert(y, s, leq), leq, line);
    } else {
      FirstOfTwo(y, x, s, leq);
      AlikeItself([y] + Insert(x, s, leq), leq, line);
    }
  }

  lemma TwoInFront<T(!new)>(x: T, y: T, s: seq<T>, leq: (T, T) -> bool)
    requires leq(x, y) && (s == [] || leq(y, s[0]))
    ensures Insert(x, Insert(y, s, leq), leq) == [x] + ([y] + s)
  {}

  lemma FirstOfTwo<T(!new)>(x: T, y: T, s: seq<T>, leq: (T, T) -> bool)
    requires IsTotal(leq) && leq(x, y) && !leq(y, x) && (s == [] || leq(x, s[0]) || leq(y, s[0]))
    ensures Insert(x, Insert(y, s, leq), leq) == [x] + Insert(y, s, leq)
    ensures Insert(y, Insert(x, s, leq), leq) == [x] + Insert(y, s, leq)
  {
    assert s == [] || leq(x, s[0]);
    assert ([x] + s)[1..] == s;
  }

  /** An entry may move to the front without changing what is shown. */
  lemma {:induction false} MoveToFront<T(!new)>(a: seq<T>, x: T, b: seq<T>, leq: (T, T) -> bool, line: T -> string)
    requires IsTotal(leq) && TiesAgree(a + [x] + b, leq, line)
    ensures Alike(Sort(a + [x] + b, leq), Insert(x, Sort(a + b, leq), leq), leq, line)
    decreases |a|
  {
    var s := a + [x] + b;
    if a == [] {
      assert s == [x] + b && a + b == b && s[1..] == b;
      AlikeItself(Sort(s, leq), leq, line);
    } else {
      var y, a' := a[0], a[1..];
      assert s == [y] + (a' + [x] + b) && s[1..] == a' + [x] + b && (a + b)[1..] == a' + b && (a + b)[0] == y;
      MoveToFront(a', x, b, leq, line);
      InsertAlike(y, Sort(a' + [x] + b, leq), Insert(x, Sort(a' + b, leq), leq), leq, line);
      assert x in s && y in s;
      InsertsCommute(y, x, Sort(a' + b, leq), leq, line);
      AlikeThen(Sort(s, leq), Insert(y, Insert(x, Sort(a' + b, leq), leq), leq), Insert(x, Sort(a + b, leq), leq), leq, line);
    }
  }

  /** An entry taken out of a list. */
  lemma TakenOut<T(!new)>(t: seq<T>, x: T) returns (a: seq<T>, b: seq<T>)
    requires x in t
    ensures t == a + [x] + b && multiset(t) == multiset{x} + multiset(a + b)
    ensures forall y :: y in t && y != x ==> y in a + b
  {
    var i :| 0 <= i < |t| && t[i] == x;
    a, b := t[..i], t[i + 1..];
    assert t == a + [x] + b;
    assert multiset(a + b) == multiset(a) + multiset(b);
  }

  lemma SameRest<T(!new)>(x: T, m: multiset<T>, n: multiset<T>)
    requires multiset{x} + m == multiset{x} + n
    ensures m == n
  {
    assert (multiset{x} + m) - multiset{x} == m && (multiset{x} + n) - multiset{x} == n;
  }

  lemma InOther<T(!new)>(s: seq<T>, t: seq<T>, x: T)
    requires multiset(s) == multiset(t) && x in s
    ensures x in t
  {
    assert x in multiset(s);
  }

  lemma TiesAgreeWithin<T(!new)>(s: seq<T>, t: seq<T>, leq: (T, T) -> bool, line: T -> string)
    requires TiesAgree(s, leq, line) && forall x :: x in t ==> x in s
    ensures TiesAgree(t, leq, line)
  {}

  /** If ties agree, every arrangement of the entries shows the same lines. */
  lemma {:induction false} OrderIsForgotten<T(!new)>(s: seq<T>, t: seq<T>, leq: (T, T) -> bool, line: T -> string)
    requires IsTotal(leq) && TiesAgree(s, leq, line) && multiset(s) == multiset(t)
    ensures Alike(Sort(t, leq), Sort(s, leq), leq, line)
  {
    if s == [] {
      assert multiset(t) == multiset{};
      assert |t| == |multiset(t)|;
    } else {
      var x := s[0];
      InOther(s, t, x);
      var a, b := TakenOut(t, x);
      assert s == [x] + s[1..];
      SameRest(x, multiset(a + b), multiset(s[1..]));
      forall y | y in t ensures y in s { InOther(t, s, y); }
      TiesAgreeWithin(s, t, leq, line);
      TiesAgreeWithin(s, s[1..], leq, line);
      MoveToFront(a, x, b, leq, line);
      OrderIsForgotten(s[1..], a + b, leq, line);
      InsertAlike(x, Sort(a + b, leq), Sort(s[1..], leq), leq, line);
      AlikeThen(Sort(t, leq), Insert(x, Sort(a + b, leq), leq), Sort(s, leq), leq, line);
    }
  }

  /** Two entries that tie stay in the order they came in, next to each other. */
  lemma {:induction false} TiedPair<T(!new)>(x: T, y: T, s: seq<T>, leq: (T, T) -> bool, line: T -> string) returns (i: nat)
    requires IsTotal(leq) && leq(x, y) && leq(y, x)
    ensures var p, q := Insert(x, Insert(y, s, leq), leq), Insert(y, Insert(x, s, leq), leq);
            i < |p| && i < |q| && p[i] == x && q[i] == y
  {
    if s == [] || leq(y, s[0]) {
      assert s == [] || leq(x, s[0]);
      TwoInFront(x, y, s, leq);
      TwoInFront(y, x, s, leq);
      i := 0;
    } else {
      assert !leq(x, s[0]);
      var j := TiedPair(x, y, s[1..], leq, line);
      var p, q := Insert(y, s[1..], leq), Insert(x, s[1..], leq);
      assert ([s[0]] + p)[1..] == p && ([s[0]] + q)[1..] == q;
      i := j + 1;
    }
  }

  lemma {:induction false} ShownAt<T(!new)>(s: seq<T>, line: T -> string, i: nat)
    requires i < |s|
    ensures Shown(s, line)[i] == line(s[i])
  {
    if i > 0 { ShownAt(s[1..], line, i - 1); }
  }

  lemma InFront<T(!new)>(x: T, y: T, rest: seq<T>)
    ensures multiset([x, y] + rest) == multiset{x} + multiset{y} + multiset(rest)
  {
    assert [x, y] + rest == [x] + ([y] + rest);
  }

  lemma Nested<T(!new)>(m: multiset<T>, x: T, y: T, n: multiset<T>, k: multiset<T>)
    requires m == multiset{x} + n && n == multiset{y} + k
    ensures m == multiset{x} + multiset{y} + k && m == multiset{y} + multiset{x} + k
  {}

  /** Two entries of a list, put in front of the others. */
  lemma PairInFront<T(!new)>(s: seq<T>, x: T, y: T) returns (rest: seq<T>)
    requires x in s && y in s && x != y
    ensures multiset([x, y] + rest) == multiset(s) && multiset([y, x] + rest) == multiset(s)
  {
    var a, b := TakenOut(s, x);
    var c, d := TakenOut(a + b, y);
    rest := c + d;
    InFront(x, y, rest);
    InFront(y, x, rest);
    Nested(multiset(s), x, y, multiset(a + b), multiset(rest));
  }

  /** A tie that does not agree shows: two arrangements read differently. */
  lemma TieShows<T(!new)>(s: seq<T>, leq: (T, T) -> bool, line: T -> string, x: T, y: T) returns (p: seq<T>, q: seq<T>)
    requires IsTotal(leq) && x in s && y in s && leq(x, y) && leq(y, x) && line(x) != line(y)
    ensures multiset(p) == multiset(s) == multiset(q)
    ensures Shown(Sort(p, leq), line) != Shown(Sort(q, leq), line)
  {
    var rest := PairInFront(s, x, y);
    p, q := [x, y] + rest, [y, x] + rest;
    assert p[1..] == [y] + rest && ([y] + rest)[1..] == rest && q[1..] == [x] + rest && ([x] + rest)[1..] == rest;
    assert Sort(p, leq) == Insert(x, Insert(y, Sort(rest, leq), leq), leq);
    assert Sort(q, leq) == Insert(y, Insert(x, Sort(rest, leq), leq), leq);
    var i := TiedPair(x, y, Sort(rest, leq), leq, line);
    ShownAt(Sort(p, leq), line, i);
    ShownAt(Sort(q, leq), line, i);
  }

  ghost predicate ShowsOneWay<T(!new)>(s: seq<T>, leq: (T, T) -> bool, line: T -> string) {
    forall t :: multiset(t) == multiset(s) ==> Shown(Sort(t, leq), line) == Shown(Sort(s, leq), line)
  }

  /** What is shown is the same for every arrangement of the entries exactly when
      entries that tie read the same. */
  lemma OrderForgottenIff<T(!new)>(s: seq<T>, leq: (T, T) -> bool, line: T -> string)
    requires IsTotal(leq)
    ensures TiesAgree(s, leq, line) <==> ShowsOneWay(s, leq, line)
  {
    if TiesAgree(s, leq, line) {
      forall t | multiset(t) == multiset(s) ensures Shown(Sort(t, leq), line) == Shown(Sort(s, leq), line) {
        OrderIsForgotten(s, t, leq, line);
        AlikeShown(Sort(t, leq), Sort(s, leq), leq, line);
      }
    } else {
      var x, y :| x in s && y in s && leq(x, y) && leq(y, x) && line(x) != line(y);
      var p, q := TieShows(s, leq, line, x, y);
    }
  }
}
