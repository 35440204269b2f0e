/** `PointComparator`: the order in which a line keeps its points, and the sort
    it drives in `Line.sort_points`. Coordinates are exact reals here. */
module PointOrder {

  datatype Coord = Coord(x: real, y: real, z: real)

  /** The intended order, written independently of the comparator: larger x
      first, then larger y, then smaller z. */
  predicate Precedes(a: Coord, b: Coord)
  {
    a.x > b.x || (a.x == b.x && (a.y > b.y || (a.y == b.y && a.z < b.z)))
  }

  /** `PointComparator.compare`: -1 when `a` goes first, 1 when `b` does, 0 on a tie. */
  function Compare(a: Coord, b: Coord): (r: int)
    ensures r == 0 <==> a == b
    ensures r == -1 <==> Precedes(a, b)
    ensures r == 1 <==> Precedes(b, a)
  {
    if a.x == b.x then
      if a.y == b.y then
        if a.z == b.z then 0
        else if a.z < b.z then -1
        else 1
      else if a.y > b.y then -1
      else 1
    else if a.x > b.x then -1
    else 1
  }

  /** The comparator is antisymmetric. */
  lemma CompareAntisymmetric(a: Coord, b: Coord)
    ensures Compare(a, b) == -Compare(b, a)
  {
  }

  /** `Precedes` is a strict total order on coordinates: irreflexive,
      transitive, and any two distinct coordinates are comparable. */
  lemma PrecedesIsStrictTotalOrder(a: Coord, b: Coord, c: Coord)
    ensures !Precedes(a, a)
    ensures Precedes(a, b) && Precedes(b, c) ==> Precedes(a, c)
    ensures a != b ==> Precedes(a, b) || Precedes(b, a)
    ensures !(Precedes(a, b) && Precedes(b, a))
  {
  }

  /** Every id in `ids` names a coordinate in `coord`. */
  predicate AllBelow(ids: seq<nat>, n: nat)
  {
    forall i :: 0 <= i < |ids| ==> ids[i] < n
  }

  /** No id is placed after an id whose coordinate it precedes. */
  predicate Sorted(ids: seq<nat>, coord: seq<Coord>)
    requires AllBelow(ids, |coord|)
  {
    forall i, j :: 0 <= i < j < |ids| ==> !Precedes(coord[ids[j]], coord[ids[i]])
  }

  /** Putting in front an element that no later element precedes keeps a sequence sorted. */
  lemma SortedCons(h: nat, t: seq<nat>, coord: seq<Coord>)
    requires h < |coord| && AllBelow(t, |coord|) && Sorted(t, coord)
    requires forall y :: y in t ==> !Precedes(coord[y], coord[h])
    ensures AllBelow([h] + t, |coord|) && Sorted([h] + t, coord)
  {
    var r := [h] + t;
    forall i, j | 0 <= i < j < |r| ensures !Precedes(coord[r[j]], coord[r[i]]) {
      if i > 0 { assert r[i] == t[i - 1] && r[j] == t[j - 1]; } else { assert r[j] in t; }
    }
  }

  /** Inserts `x` before the first element it strictly precedes. */
  function Insert(x: nat, s: seq<nat>, coord: seq<Coord>): (r: seq<nat>)
    requires x < |coord| && AllBelow(s, |coord|) && Sorted(s, coord)
    ensures AllBelow(r, |coord|) && Sorted(r, coord)
    ensures multiset(r) == multiset(s) + multiset{x}
  {
    if |s| == 0 then [x]
    else if Compare(coord[x], coord[s[0]]) < 0 then
      InsertFront(x, s, coord);
      [x] + s
    else
      var rest := Insert(x, s[1..], coord);
      InsertBehind(x, s, rest, coord);
      [s[0]] + rest
  }

  lemma InsertFront(x: nat, s: seq<nat>, coord: seq<Coord>)
    requires x < |coord| && AllBelow(s, |coord|) && Sorted(s, coord)
    requires |s| > 0 && Precedes(coord[x], coord[s[0]])
    ensures AllBelow([x] + s, |coord|) && Sorted([x] + s, coord)
  {
    forall y | y in s ensures !Precedes(coord[y], coord[x]) {
      var j :| 0 <= j < |s| && s[j] == y;
      if j > 0 { PrecedesIsStrictTotalOrder(coord[y], coord[x], coord[s[0]]); }
    }
    SortedCons(x, s, coord);
  }

  lemma InsertBehind(x: nat, s: seq<nat>, rest: seq<nat>, coord: seq<Coord>)
    requires x < |coord| && AllBelow(s, |coord|) && Sorted(s, coord)
    requires |s| > 0 && !Precedes(coord[x], coord[s[0]])
    requires AllBelow(rest, |coord|) && Sorted(rest, coord)
    requires multiset(rest) == multiset(s[1..]) + multiset{x}
    ensures AllBelow([s[0]] + rest, |coord|) && Sorted([s[0]] + rest, coord)
    ensures multiset([s[0]] + rest) == multiset(s) + multiset{x}
  {
    assert s == [s[0]] + s[1..];
    forall y | y in rest ensures !Precedes(coord[y], coord[s[0]]) {
      assert y in multiset(rest);
      if y != x {
        assert y in multiset(s[1..]);
        var j :| 0 <= j < |s[1..]| && s[1..][j] == y;
        assert s[j + 1] == y;
      }
    }
    SortedCons(s[0], rest, coord);
  }

  /** `Collections.sort(points, new PointComparator())`, as an insertion sort. */
  function SortIds(ids: seq<nat>, coord: seq<Coord>): (r: seq<nat>)
    requires AllBelow(ids, |coord|)
    ensures AllBelow(r, |coord|) && Sorted(r, coord)
    ensures multiset(r) == multiset(ids)
    ensures |r| == |ids|
  {
    if |ids| == 0 then []
    else
      var init := ids[..|ids| - 1];
      assert ids == init + [ids[|ids| - 1]];
      var r := Insert(ids[|ids| - 1], SortIds(init, coord), coord);
      assert |r| == |multiset(r)|;
      r
  }
}
