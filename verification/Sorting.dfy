// Sorting sets of ids and comparing names.
module Sorting {
  import opened Text

  predicate Ascending(ids: seq<int>) {
    forall i, j :: 0 <= i < j < |ids| ==> ids[i] < ids[j]
  }

  // The members of a set of ids in ascending order.
  method SortIds(ids: set<int>) returns (sorted: seq<int>)
    ensures Ascending(sorted)
    ensures forall id :: id in sorted <==> id in ids
    ensures |sorted| == |ids|
  {
    var left := ids;
    sorted := [];
    while left != {}
      invariant left <= ids && |sorted| + |left| == |ids|
      invariant Ascending(sorted)
      invariant forall id :: id in ids <==> id in sorted || id in left
      invariant forall id, k :: id in left && 0 <= k < |sorted| ==> sorted[k] < id
      decreases |left|
    {
      var least := Least(left);
      sorted := sorted + [least];
      left := left - {least};
    }
  }

  method Least(ids: set<int>) returns (least: int)
    requires ids != {}
    ensures least in ids && forall id :: id in ids ==> least <= id
  {
    SomeMember(ids);
    least :| least in ids;
    var left := ids - {least};
    while left != {}
      invariant left <= ids && least in ids
      invariant forall id :: id in ids && id !in left ==> least <= id
      decreases |left|
    {
      SomeMember(left);
      var id :| id in left;
      if id < least {
        least := id;
      }
      left := left - {id};
    }
  }

  // The byte order of strings; on Unicode text the order of code points.
  predicate Leq(a: string, b: string) {
    if a == "" then true
    else if b == "" then false
    else a[0] < b[0] || (a[0] == b[0] && Leq(a[1..], b[1..]))
  }

  lemma {:induction false} LeqTotal(a: string, b: string)
    ensures Leq(a, b) || Leq(b, a)
  {
    if a != "" && b != "" && a[0] == b[0] {
      LeqTotal(a[1..], b[1..]);
    }
  }

  lemma {:induction false} LeqTransitive(a: string, b: string, c: string)
    requires Leq(a, b) && Leq(b, c)
    ensures Leq(a, c)
  {
    if a != "" && a[0] == b[0] == c[0] {
      LeqTransitive(a[1..], b[1..], c[1..]);
    }
  }

  lemma {:induction false} LeqSamePrefix(p: string, a: string, b: string)
    ensures Leq(p + a, p + b) <==> Leq(a, b)
  {
    if p == "" {
      assert p + a == a && p + b == b;
    } else {
      assert (p + a)[1..] == p[1..] + a && (p + b)[1..] == p[1..] + b;
      LeqSamePrefix(p[1..], a, b);
    }
  }

  // The first character in which two strings differ decides, and a string comes after its
  // own beginning.
  lemma LeqMeans(p: string, c: char, x: string, d: char, y: string)
    requires c < d
    ensures Leq(p + ([c] + x), p + ([d] + y)) && !Leq(p + ([d] + y), p + ([c] + x))
    ensures Leq(p, p + x) && (x != "" ==> !Leq(p + x, p))
  {
    LeqSamePrefix(p, [c] + x, [d] + y);
    LeqSamePrefix(p, [d] + y, [c] + x);
    LeqSamePrefix(p, "", x);
    LeqSamePrefix(p, x, "");
    assert p + "" == p;
  }
}
