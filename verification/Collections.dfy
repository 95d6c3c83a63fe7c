/** Small facts about numbers, lists and sets that several models share. */
module Collections {

  function Lesser(a: int, b: int): (r: int)
    ensures r <= a && r <= b && (r == a || r == b)
  {
    if a < b then a else b
  }

  /** The first `limit` entries, or all there are. */
  function Take<T>(s: seq<T>, limit: nat): seq<T> { if |s| <= limit then s else s[..limit] }

  lemma {:induction false} SubsetIsSmaller<T>(a: set<T>, b: set<T>)
    requires a <= b
    ensures |a| <= |b|
  {
    if a != {} {
      var x :| x in a;
      SubsetIsSmaller(a - {x}, b - {x});
    }
  }

  /** Counting is enough: a part as large as the whole is the whole. */
  lemma SameSizeIsSame<T>(part: set<T>, whole: set<T>)
    requires part <= whole
    ensures |part| == |whole| <==> part == whole
  {
    if part != whole {
      var x :| x in whole && x !in part;
      SubsetIsSmaller(part, whole - {x});
    }
  }
}
