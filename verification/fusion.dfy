/** Fusing two coplanar polygons that share a run of consecutive points
    (`Conglomerate.combine_polygons` and `Conglomerate.merge_lists`). Polygons
    are given by their cyclic point-id sequences; indices move with `get_next`. */
module Fusion {
  import opened Wrappers
  import opened Cyclic
  import Seqs

  /** The direction `merge_lists` derives from its `is_forward` flag. */
  function Dir(forward: bool): int
  {
    if forward then 1 else -1
  }

  /** The first `k` points met when stepping from `start` in direction `d`. */
  function Arc(s: seq<nat>, start: nat, d: int, k: nat): (r: seq<nat>)
    requires start < |s| && IsStep(d)
    ensures |r| == k
  {
    seq(k, j requires 0 <= j < k => s[Walk(|s|, start, d, j)])
  }

  /** The points from index `a` to index `b`, both included, stepping in direction `d`. */
  function ArcTo(s: seq<nat>, a: nat, b: nat, d: int): seq<nat>
    requires a < |s| && b < |s| && IsStep(d)
  {
    Arc(s, a, d, Dist(|s|, a, b, d) + 1)
  }

  /** An arc starts at `s[a]`, ends at `s[b]`, never laps the cycle and only
      holds points of `s`. */
  lemma ArcToShape(s: seq<nat>, a: nat, b: nat, d: int)
    requires a < |s| && b < |s| && IsStep(d)
    ensures 1 <= |ArcTo(s, a, b, d)| <= |s|
    ensures ArcTo(s, a, b, d)[0] == s[a]
    ensures ArcTo(s, a, b, d)[|ArcTo(s, a, b, d)| - 1] == s[b]
    ensures forall x :: x in ArcTo(s, a, b, d) ==> x in s
  {
    WalkReaches(|s|, a, b, d);
  }

  /** The walk loop of `merge_lists`: collects points from `a` until `b` is
      reached, then `b` itself. */
  method CollectArc(s: seq<nat>, a: nat, b: nat, d: int) returns (r: seq<nat>)
    requires a < |s| && b < |s| && IsStep(d)
    ensures r == ArcTo(s, a, b, d)
  {
    WalkReaches(|s|, a, b, d);
    var dist := Dist(|s|, a, b, d);
    r := [];
    var current := a;
    var k: nat := 0;
    while current != b
      invariant k <= dist && current == Walk(|s|, a, d, k)
      invariant r == Arc(s, a, d, k)
      decreases dist - k
    {
      r := r + [s[current]];
      current := GetNext(|s|, current, d);
      k := k + 1;
    }
    r := r + [s[b]];
  }

  /** `merge_lists`: the shared point before the first arc, the first polygon's
      unshared arc, the shared point after it, then the second polygon's arc. */
  method MergeLists(first: seq<nat>, second: seq<nat>, firstStart: nat, firstEnd: nat, firstForward: bool,
                    secondStart: nat, secondEnd: nat, secondForward: bool, preStart: nat, postEnd: nat)
    returns (r: seq<nat>)
    requires firstStart < |first| && firstEnd < |first|
    requires secondStart < |second| && secondEnd < |second|
    ensures r == [preStart] + ArcTo(first, firstStart, firstEnd, Dir(firstForward))
                 + [postEnd] + ArcTo(second, secondStart, secondEnd, Dir(secondForward))
  {
    var a := CollectArc(first, firstStart, firstEnd, Dir(firstForward));
    var b := CollectArc(second, secondStart, secondEnd, Dir(secondForward));
    r := [preStart] + a + [postEnd] + b;
  }

  /** After `t` simultaneous steps from `fi` and `si` the two polygons hold the same point. */
  predicate AgreeAt(first: seq<nat>, second: seq<nat>, fi: nat, si: nat, fd: int, sd: int, t: nat)
    requires fi < |first| && si < |second| && IsStep(fd) && IsStep(sd)
  {
    first[Walk(|first|, fi, fd, t)] == second[Walk(|second|, si, sd, t)]
  }

  /** Step `t` is the first at which the two walks hold different points. */
  predicate FirstDisagreement(first: seq<nat>, second: seq<nat>, fi: nat, si: nat, fd: int, sd: int, t: nat)
    requires fi < |first| && si < |second| && IsStep(fd) && IsStep(sd)
  {
    && !AgreeAt(first, second, fi, si, fd, sd, t)
    && forall u: nat :: u < t ==> AgreeAt(first, second, fi, si, fd, sd, u)
  }

  /** Two walks have only one first disagreement. */
  lemma FirstDisagreementUnique(first: seq<nat>, second: seq<nat>, fi: nat, si: nat, fd: int, sd: int,
                                t1: nat, t2: nat)
    requires fi < |first| && si < |second| && IsStep(fd) && IsStep(sd)
    requires FirstDisagreement(first, second, fi, si, fd, sd, t1)
    requires FirstDisagreement(first, second, fi, si, fd, sd, t2)
    ensures t1 == t2
  {
  }

  /** One `do … while` extension loop of `combine_polygons`, counted from the
      indices its first step reaches (`fi`, `si`) and from step `t` on: the
      first step at which the two polygons hold different points. The joint
      index pair has only `|first| * |second|` values, so a loop whose points
      still agree after that many steps repeats forever; that case is reported
      as `Diverged`. */
  function Extend(first: seq<nat>, second: seq<nat>, fi: nat, si: nat, fd: int, sd: int, t: nat): (r: Result<nat>)
    requires fi < |first| && si < |second| && IsStep(fd) && IsStep(sd)
    ensures r.Success? ==> t <= r.value && (t <= |first| * |second| ==> r.value <= |first| * |second|)
    ensures r.Success? ==> !AgreeAt(first, second, fi, si, fd, sd, r.value)
    ensures r.Success? ==> forall u: nat :: t <= u < r.value ==> AgreeAt(first, second, fi, si, fd, sd, u)
    ensures r.Failure? ==> r.fault == Diverged
    ensures r.Failure? ==> forall u: nat :: t <= u <= |first| * |second| ==> AgreeAt(first, second, fi, si, fd, sd, u)
    decreases |first| * |second| - t
  {
    if !AgreeAt(first, second, fi, si, fd, sd, t) then Success(t)
    else if t >= |first| * |second| then Failure(Diverged)
    else Extend(first, second, fi, si, fd, sd, t + 1)
  }

  /** Whether `current` is immediately followed by `next` in the cycle, as
      `combine_polygons` tests it to choose the search direction. */
  function Forward(current: int, next: int): bool
  {
    current == next - 1 || (next == 0 && current != 1)
  }

  /** What `combine_polygons` looks up before it searches: the `find_point`
      indices of the edge's two ends in each polygon (-1 for a point that is
      not there), after the ends are swapped so that the first polygon does
      not step directly from `current` to `next` forwards, and the direction
      each search moves away from the edge. */
  datatype Probe = Probe(fc: int, sc: int, fn: int, sn: int, fd: int, sd: int)

  function ProbeOf(first: seq<nat>, second: seq<nat>, current: nat, next: nat): (p: Probe)
    ensures IsStep(p.fd) && IsStep(p.sd)
    ensures -1 <= p.fc < |first| && -1 <= p.fn < |first| && -1 <= p.sc < |second| && -1 <= p.sn < |second|
    ensures OnBoth(first, second, current, next) ==> p.fc >= 0 && p.fn >= 0 && p.sc >= 0 && p.sn >= 0
    ensures p.fc >= 0 && p.sc >= 0 ==> first[p.fc] == second[p.sc]
    ensures p.fn >= 0 && p.sn >= 0 ==> first[p.fn] == second[p.sn]
  {
    var swap := Seqs.IndexOf(first, current) > Seqs.IndexOf(first, next)
                || (Seqs.IndexOf(first, current) == 0 && Seqs.IndexOf(first, next) != 1);
    var cur := if swap then next else current;
    var nxt := if swap then current else next;
    var fc, sc := Seqs.IndexOf(first, cur), Seqs.IndexOf(second, cur);
    var fn, sn := Seqs.IndexOf(first, nxt), Seqs.IndexOf(second, nxt);
    Probe(fc, sc, fn, sn, if Forward(fc, fn) then -1 else 1, if Forward(sc, sn) then -1 else 1)
  }

  /** Both ends of the edge are points of both polygons. */
  predicate OnBoth(first: seq<nat>, second: seq<nat>, current: nat, next: nat)
  {
    current in first && next in first && current in second && next in second
  }

  /** The first step of the search before the run lands on an index of each
      polygon; `get_point` faults otherwise. */
  predicate BeforeInRange(first: seq<nat>, second: seq<nat>, p: Probe)
  {
    0 <= GetNext(|first|, p.fc, p.fd) < |first| && 0 <= GetNext(|second|, p.sc, p.sd) < |second|
  }

  /** The same for the search after the run. */
  predicate AfterInRange(first: seq<nat>, second: seq<nat>, p: Probe)
  {
    0 <= GetNext(|first|, p.fn, -p.fd) < |first| && 0 <= GetNext(|second|, p.sn, -p.sd) < |second|
  }

  /** Where `combine_polygons` cuts the two polygons: the unshared arcs of each,
      the directions `merge_lists` walks them in, the two ends of the shared run,
      and how many steps each search took after its first. */
  datatype Seam = Seam(firstStart: nat, firstEnd: nat, firstForward: bool,
                       secondStart: nat, secondEnd: nat, secondForward: bool,
                       initialShared: nat, finalShared: nat, before: nat, after: nat)

  predicate SeamInRange(first: seq<nat>, second: seq<nat>, m: Seam)
  {
    m.firstStart < |first| && m.firstEnd < |first| && m.secondStart < |second| && m.secondEnd < |second|
  }

  /** `m` is the seam of the edge `current`–`next`: each search runs from the
      edge until the first step where the two polygons hold different points,
      the arcs start and end there, and the shared ends are one step back
      towards the edge. */
  predicate IsSeam(first: seq<nat>, second: seq<nat>, current: nat, next: nat, m: Seam)
  {
    var p := ProbeOf(first, second, current, next);
    && BeforeInRange(first, second, p) && AfterInRange(first, second, p)
    && var fb, sb := GetNext(|first|, p.fc, p.fd), GetNext(|second|, p.sc, p.sd);
       var fa, sa := GetNext(|first|, p.fn, -p.fd), GetNext(|second|, p.sn, -p.sd);
       && FirstDisagreement(first, second, fb, sb, p.fd, p.sd, m.before)
       && FirstDisagreement(first, second, fa, sa, -p.fd, -p.sd, m.after)
       && m.firstStart == Walk(|first|, fb, p.fd, m.before)
       && m.secondEnd == Walk(|second|, sb, p.sd, m.before)
       && m.firstEnd == Walk(|first|, fa, -p.fd, m.after)
       && m.secondStart == Walk(|second|, sa, -p.sd, m.after)
       && m.firstForward == !Forward(p.fc, p.fn) && m.secondForward == Forward(p.sc, p.sn)
       && m.initialShared == first[GetNext(|first|, m.firstStart, -p.fd)]
       && m.finalShared == first[GetNext(|first|, m.firstEnd, p.fd)]
  }

  /** An edge has at most one seam. */
  lemma SeamUnique(first: seq<nat>, second: seq<nat>, current: nat, next: nat, m1: Seam, m2: Seam)
    requires IsSeam(first, second, current, next, m1) && IsSeam(first, second, current, next, m2)
    ensures m1 == m2
  {
    var p := ProbeOf(first, second, current, next);
    var fb, sb := GetNext(|first|, p.fc, p.fd), GetNext(|second|, p.sc, p.sd);
    var fa, sa := GetNext(|first|, p.fn, -p.fd), GetNext(|second|, p.sn, -p.sd);
    FirstDisagreementUnique(first, second, fb, sb, p.fd, p.sd, m1.before, m2.before);
    FirstDisagreementUnique(first, second, fa, sa, -p.fd, -p.sd, m1.after, m2.after);
  }

  /** Stepping back once from where a search stopped gives a point of the
      first polygon that the second holds too: either the last agreeing step,
      or, when the very first step disagreed, the edge's own end. */
  lemma StepBackShared(first: seq<nat>, second: seq<nat>, c: nat, s: nat, fd: int, sd: int, t: nat)
    requires c < |first| && s < |second| && IsStep(fd) && IsStep(sd) && first[c] == second[s]
    requires FirstDisagreement(first, second, GetNext(|first|, c, fd), GetNext(|second|, s, sd), fd, sd, t)
    ensures first[GetNext(|first|, Walk(|first|, GetNext(|first|, c, fd), fd, t), -fd)] in second
  {
    var fb, sb := GetNext(|first|, c, fd), GetNext(|second|, s, sd);
    if t == 0 {
      GetNextInverse(|first|, c, fd);
    } else {
      GetNextInverse(|first|, Walk(|first|, fb, fd, t - 1), fd);
      assert AgreeAt(first, second, fb, sb, fd, sd, t - 1);
    }
  }

  /** When the edge lies on both polygons, both ends of the seam are points
      the two polygons share. */
  lemma SeamEndsShared(first: seq<nat>, second: seq<nat>, current: nat, next: nat, m: Seam)
    requires IsSeam(first, second, current, next, m) && OnBoth(first, second, current, next)
    ensures m.initialShared in first && m.initialShared in second
    ensures m.finalShared in first && m.finalShared in second
  {
    var p := ProbeOf(first, second, current, next);
    StepBackShared(first, second, p.fc, p.sc, p.fd, p.sd, m.before);
    StepBackShared(first, second, p.fn, p.sn, -p.fd, -p.sd, m.after);
    assert -(-p.fd) == p.fd;
  }

  /** The seam the two searches give when the first stops after `t1` steps
      and the second after `t2`. */
  function SeamAt(first: seq<nat>, second: seq<nat>, p: Probe, t1: nat, t2: nat): Seam
    requires IsStep(p.fd) && IsStep(p.sd) && BeforeInRange(first, second, p) && AfterInRange(first, second, p)
  {
    var fb, sb := GetNext(|first|, p.fc, p.fd), GetNext(|second|, p.sc, p.sd);
    var fa, sa := GetNext(|first|, p.fn, -p.fd), GetNext(|second|, p.sn, -p.sd);
    var firstStart := Walk(|first|, fb, p.fd, t1);
    var firstEnd := Walk(|first|, fa, -p.fd, t2);
    Seam(firstStart, firstEnd, !Forward(p.fc, p.fn),
         Walk(|second|, sa, -p.sd, t2), Walk(|second|, sb, p.sd, t1), Forward(p.sc, p.sn),
         first[GetNext(|first|, firstStart, -p.fd)], first[GetNext(|first|, firstEnd, p.fd)],
         t1, t2)
  }

  /** Two searches that both stop give the seam. */
  lemma SeamOfSearches(first: seq<nat>, second: seq<nat>, current: nat, next: nat, t1: nat, t2: nat)
    requires var p := ProbeOf(first, second, current, next);
      && BeforeInRange(first, second, p) && AfterInRange(first, second, p)
      && Extend(first, second, GetNext(|first|, p.fc, p.fd), GetNext(|second|, p.sc, p.sd), p.fd, p.sd, 0) == Success(t1)
      && Extend(first, second, GetNext(|first|, p.fn, -p.fd), GetNext(|second|, p.sn, -p.sd), -p.fd, -p.sd, 0) == Success(t2)
    ensures IsSeam(first, second, current, next, SeamAt(first, second, ProbeOf(first, second, current, next), t1, t2))
  {
  }

  /** The index arithmetic of `combine_polygons`: orients the edge, picks the
      search directions and runs the two searches. A first step that leaves
      the polygon (an end missing from it, so `find_point` gave -1) is an
      index fault. */
  function FindSeam(first: seq<nat>, second: seq<nat>, current: nat, next: nat): (r: Result<Seam>)
    ensures r.Success? ==> IsSeam(first, second, current, next, r.value)
    ensures r.Failure? ==> r.fault == IndexOutOfRange || r.fault == Diverged
    ensures !BeforeInRange(first, second, ProbeOf(first, second, current, next)) ==> r == Failure(IndexOutOfRange)
    ensures r == Failure(IndexOutOfRange) ==>
              !BeforeInRange(first, second, ProbeOf(first, second, current, next))
              || !AfterInRange(first, second, ProbeOf(first, second, current, next))
  {
    var p := ProbeOf(first, second, current, next);
    if !BeforeInRange(first, second, p) then Failure(IndexOutOfRange)
    else
      match Extend(first, second, GetNext(|first|, p.fc, p.fd), GetNext(|second|, p.sc, p.sd), p.fd, p.sd, 0)
      case Failure(e) => Failure(e)
      case Success(t1) =>
        if !AfterInRange(first, second, p) then Failure(IndexOutOfRange)
        else
          match Extend(first, second, GetNext(|first|, p.fn, -p.fd), GetNext(|second|, p.sn, -p.sd), -p.fd, -p.sd, 0)
          case Failure(e) => Failure(e)
          case Success(t2) =>
            SeamOfSearches(first, second, current, next, t1, t2);
            Success(SeamAt(first, second, p, t1, t2))
  }

  /** The list `merge_lists` builds from a seam. */
  function Merged(first: seq<nat>, second: seq<nat>, m: Seam): seq<nat>
    requires SeamInRange(first, second, m)
  {
    [m.initialShared] + ArcTo(first, m.firstStart, m.firstEnd, Dir(m.firstForward))
      + [m.finalShared] + ArcTo(second, m.secondStart, m.secondEnd, Dir(m.secondForward))
  }

  /** The list `merge_lists` builds has at least four points, all taken from
      the two polygons or the two shared ends, with the shared ends at the
      front and right after the first arc. */
  lemma MergedShape(first: seq<nat>, second: seq<nat>, m: Seam)
    requires SeamInRange(first, second, m)
    ensures var r := Merged(first, second, m);
      && |r| >= 4 && r[0] == m.initialShared
      && r[1 + |ArcTo(first, m.firstStart, m.firstEnd, Dir(m.firstForward))|] == m.finalShared
      && (forall x :: x in r ==> x == m.initialShared || x == m.finalShared || x in first || x in second)
  {
    ArcToShape(first, m.firstStart, m.firstEnd, Dir(m.firstForward));
    ArcToShape(second, m.secondStart, m.secondEnd, Dir(m.secondForward));
  }

  /** What every list built from a seam has: at least four points, all from
      the two polygons, and, when the edge lies on both, shared points at the
      front and right after the first arc. */
  lemma MergedFacts(first: seq<nat>, second: seq<nat>, current: nat, next: nat, m: Seam)
    requires IsSeam(first, second, current, next, m)
    ensures SeamInRange(first, second, m)
    ensures var r := Merged(first, second, m);
      && |r| >= 4 && (forall x :: x in r ==> x in first || x in second)
      && (OnBoth(first, second, current, next) ==>
            && r[0] in first && r[0] in second
            && exists k :: 1 <= k < |r| && r[k] in first && r[k] in second)
  {
    MergedShape(first, second, m);
    var k := 1 + |ArcTo(first, m.firstStart, m.firstEnd, Dir(m.firstForward))|;
    assert Merged(first, second, m)[k] == m.finalShared;
    if OnBoth(first, second, current, next) {
      SeamEndsShared(first, second, current, next, m);
    }
  }

  /** `combine_polygons`: fuses two polygons across the shared run of points
      through the edge `current`–`next`. The result is the seam's first shared
      end, the first polygon's unshared arc, the other shared end and the
      second polygon's unshared arc. An end missing from a polygon is a fault
      only when the search steps off the polygon with it. */
  function Combine(first: seq<nat>, second: seq<nat>, current: nat, next: nat): (r: Result<seq<nat>>)
    ensures r.Success? ==> exists m :: IsSeam(first, second, current, next, m) && SeamInRange(first, second, m)
                                       && r.value == Merged(first, second, m)
    ensures r.Failure? ==> r.fault == IndexOutOfRange || r.fault == Diverged
    ensures !BeforeInRange(first, second, ProbeOf(first, second, current, next)) ==> r == Failure(IndexOutOfRange)
    ensures OnBoth(first, second, current, next) ==> r != Failure(IndexOutOfRange)
    ensures r.Success? ==> |r.value| >= 4 && forall x :: x in r.value ==> x in first || x in second
    ensures r.Success? && OnBoth(first, second, current, next) ==>
              && r.value[0] in first && r.value[0] in second
              && exists k :: 1 <= k < |r.value| && r.value[k] in first && r.value[k] in second
  {
    match FindSeam(first, second, current, next)
    case Failure(e) => Failure(e)
    case Success(m) =>
      MergedFacts(first, second, current, next, m);
      Success(Merged(first, second, m))
  }

  /** The walk loops of `merge_lists` build exactly the list `Combine` describes. */
  method CombinePolygons(first: seq<nat>, second: seq<nat>, current: nat, next: nat)
    returns (r: Result<seq<nat>>)
    ensures r == Combine(first, second, current, next)
  {
    var seam := FindSeam(first, second, current, next);
    if seam.Failure? {
      return Failure(seam.fault);
    }
    var m := seam.value;
    var points := MergeLists(first, second, m.firstStart, m.firstEnd, m.firstForward,
                             m.secondStart, m.secondEnd, m.secondForward, m.initialShared, m.finalShared);
    r := Success(points);
  }
}
