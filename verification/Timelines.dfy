/**
 The index of ranges and events behind the timeline view: binary searches that are to agree
 with a scan of the whole list.
 */
module Timelines {

  // ----- Ranges -----

  datatype Range = Range(start: int, end: int)

  /** Ranges in order, each one after the end of the one before. */
  ghost predicate Sorted(rs: seq<Range>) {
    && (forall i :: 0 <= i < |rs| ==> rs[i].start <= rs[i].end)
    && (forall i, j :: 0 <= i < j < |rs| ==> rs[i].end < rs[j].start)
  }

  predicate Hits(r: Range, key: int) {
    r.start <= key <= r.end
  }

  predicate Overlaps(r: Range, start: int, end: int) {
    r.start <= end && start <= r.end
  }

  ghost predicate HasHit(rs: seq<Range>, key: int) {
    exists i :: 0 <= i < |rs| && Hits(rs[i], key)
  }

  /** A range overlaps an interval exactly when some point of the interval is in it. */
  lemma OverlapsWhen(r: Range, start: int, end: int)
    requires r.start <= r.end && start <= end
    ensures Overlaps(r, start, end) <==> exists key :: start <= key <= end && Hits(r, key)
  {
    if Overlaps(r, start, end) {
      assert Hits(r, if start < r.start then r.start else start);
    }
  }

  class TimelineDataRange {
    var ranges: seq<Range>

    constructor ()
      ensures ranges == []
    {
      ranges := [];
    }

    method AddRange(r: Range)
      modifies this
      ensures ranges == old(ranges) + [r]
    {
      ranges := ranges + [r];
    }

    method Search(key: int) returns (i: int)
      requires Sorted(ranges)
      ensures i == -1 <==> !HasHit(ranges, key)
      ensures i != -1 ==> 0 <= i < |ranges| && Hits(ranges[i], key)
      ensures i != -1 ==> ranges[i].start <= key <= ranges[i].end
      ensures i == -1 ==> forall j :: 0 <= j < |ranges| ==> key < ranges[j].start || ranges[j].end < key
    {
      var l, u := 0, |ranges| - 1;
      while l <= u
        invariant 0 <= l <= u + 1 <= |ranges|
        invariant forall j :: 0 <= j < |ranges| && Hits(ranges[j], key) ==> l <= j <= u
        decreases u - l
      {
        i := (l + u) / 2;
        if key >= ranges[i].start && key <= ranges[i].end {
          return i;
        } else if key < ranges[i].start {
          u := i - 1;
        } else {
          l := i + 1;
        }
      }
      return -1;
    }

    /** The bounds are those of the scan, as the search decides them. */
    method GetRangesBounds(start: int, end: int) returns (lo: int, hi: int)
      requires Sorted(ranges)
      ensures AreBounds(ranges, start, end, lo, hi)
    {
      var s := Search(start);
      var e := Search(end);
      if s == -1 && e == -1 {
        return 0, 0;
      } else if s == -1 {
        return 0, e + 1;
      } else if e == -1 {
        return s, |ranges|;
      } else {
        return s, e + 1;
      }
    }

    method GetRanges(start: int, end: int) returns (selected: seq<Range>)
      requires Sorted(ranges)
      ensures exists lo, hi :: AreBounds(ranges, start, end, lo, hi) && selected == Slice(ranges, lo, hi)
    {
      var s := Search(start);
      var e := Search(end);
      if s == -1 && e == -1 {
        assert AreBounds(ranges, start, end, 0, 0);
        return [];
      } else if s == -1 {
        assert AreBounds(ranges, start, end, 0, e + 1);
        return Slice(ranges, 0, e + 1);
      } else if e == -1 {
        assert AreBounds(ranges, start, end, s, |ranges|);
        return Slice(ranges, s, |ranges|);
      } else {
        assert AreBounds(ranges, start, end, s, e + 1);
        return Slice(ranges, s, e + 1);
      }
    }
  }

  /** A slice with bounds that may cross or lie beyond the end. */
  function Slice<T>(xs: seq<T>, lo: int, hi: int): (r: seq<T>)
    requires 0 <= lo && 0 <= hi
    ensures forall k :: 0 <= k < |r| ==> lo + k < |xs| && lo + k < hi && r[k] == xs[lo + k]
    ensures |r| == if hi <= lo || |xs| <= lo then 0 else if hi <= |xs| then hi - lo else |xs| - lo
  {
    var h := if hi < |xs| then hi else |xs|;
    if lo < h then xs[lo..h] else []
  }

  /** Each bound is where its endpoint hits a range, or the end of the list; (0, 0) if neither hits. */
  ghost predicate AreBounds(rs: seq<Range>, start: int, end: int, lo: int, hi: int) {
    && 0 <= lo <= |rs| && 0 <= hi <= |rs|
    && (if !HasHit(rs, start) && !HasHit(rs, end) then lo == 0 && hi == 0
        else
          && (if HasHit(rs, start) then lo < |rs| && Hits(rs[lo], start) else lo == 0)
          && (if HasHit(rs, end) then 0 < hi && Hits(rs[hi - 1], end) else hi == |rs|))
  }

  /** The ranges between the bounds are exactly those that overlap. */
  ghost predicate Exact(rs: seq<Range>, start: int, end: int, lo: int, hi: int) {
    forall i :: 0 <= i < |rs| ==> (lo <= i < hi <==> Overlaps(rs[i], start, end))
  }

  /** No range that overlaps is missing. */
  ghost predicate Complete(rs: seq<Range>, start: int, end: int, lo: int, hi: int) {
    forall i :: 0 <= i < |rs| && Overlaps(rs[i], start, end) ==> lo <= i < hi
  }

  /** If both endpoints hit a range, the bounds are those of the scan. */
  lemma BothHit(rs: seq<Range>, start: int, end: int, lo: int, hi: int)
    requires Sorted(rs) && AreBounds(rs, start, end, lo, hi)
    requires HasHit(rs, start) && HasHit(rs, end)
    ensures Exact(rs, start, end, lo, hi)
  {
  }

  /**
   No range is dropped exactly when an endpoint hits one or there is none to drop: with both
   endpoints between ranges, the answer is empty even if ranges lie in the interval.
   */
  lemma CompleteWhen(rs: seq<Range>, start: int, end: int, lo: int, hi: int)
    requires Sorted(rs) && AreBounds(rs, start, end, lo, hi)
    ensures Complete(rs, start, end, lo, hi) <==>
            HasHit(rs, start) || HasHit(rs, end) || forall i :: 0 <= i < |rs| ==> !Overlaps(rs[i], start, end)
  {
  }

  /**
   The bounds are exact precisely when both endpoints hit a range; or the start does and no range
   begins after the end; or the end does and no range ends before the start; or nothing overlaps.
   */
  lemma ExactWhen(rs: seq<Range>, start: int, end: int, lo: int, hi: int)
    requires Sorted(rs) && AreBounds(rs, start, end, lo, hi)
    ensures Exact(rs, start, end, lo, hi) <==>
            if HasHit(rs, start) && HasHit(rs, end) then true
            else if HasHit(rs, start) then rs[|rs| - 1].start <= end
            else if HasHit(rs, end) then start <= rs[0].end
            else forall i :: 0 <= i < |rs| ==> !Overlaps(rs[i], start, end)
  {
  }

  /** A linear scan for the ranges that overlap, in order. */
  function Scan(rs: seq<Range>, start: int, end: int): seq<Range> {
    if rs == [] then []
    else Scan(rs[..|rs| - 1], start, end) + if Overlaps(rs[|rs| - 1], start, end) then [rs[|rs| - 1]] else []
  }

  /** Exact bounds select what the scan selects. */
  lemma {:induction false} ExactIsScan(rs: seq<Range>, start: int, end: int, lo: int, hi: int)
    requires 0 <= lo && 0 <= hi && Exact(rs, start, end, lo, hi)
    ensures Slice(rs, lo, hi) == Scan(rs, start, end)
  {
    if rs != [] {
      var n := |rs| - 1;
      assert Exact(rs[..n], start, end, lo, hi) by {
        forall i | 0 <= i < n ensures lo <= i < hi <==> Overlaps(rs[..n][i], start, end) {
          assert rs[..n][i] == rs[i];
        }
      }
      ExactIsScan(rs[..n], start, end, lo, hi);
      assert lo <= n < hi <==> Overlaps(rs[n], start, end);
      hide Slice, Exact;
      SliceStep(rs, lo, hi);
    }
  }

  lemma SliceStep<T>(xs: seq<T>, lo: int, hi: int)
    requires xs != [] && 0 <= lo && 0 <= hi
    ensures var n := |xs| - 1;
            Slice(xs, lo, hi) == Slice(xs[..n], lo, hi) + if lo <= n < hi then [xs[n]] else []
  {
  }

  /** If both endpoints hit a range, the ranges selected are those of the scan. */
  lemma SelectedIsScan(rs: seq<Range>, start: int, end: int, lo: int, hi: int)
    requires Sorted(rs) && AreBounds(rs, start, end, lo, hi) && HasHit(rs, start) && HasHit(rs, end)
    ensures Slice(rs, lo, hi) == Scan(rs, start, end)
  {
    BothHit(rs, start, end, lo, hi);
    ExactIsScan(rs, start, end, lo, hi);
  }

  /** Both endpoints between ranges: the range in the interval is dropped. */
  lemma ARangeCanBeDropped()
    ensures Sorted([Range(4, 6)]) && AreBounds([Range(4, 6)], 1, 9, 0, 0) && !Complete([Range(4, 6)], 1, 9, 0, 0)
  {
  }

  // ----- Events -----

  datatype Event = Event(at: int, value: string)

  /** Events in order of time; several may have the same time. */
  ghost predicate InOrder(es: seq<Event>) {
    forall i, j :: 0 <= i < j < |es| ==> es[i].at <= es[j].at
  }

  ghost predicate IsTime(es: seq<Event>, key: int) {
    exists i :: 0 <= i < |es| && es[i].at == key
  }

  /** An event at the time of the key, or else the place where one would be inserted. */
  ghost predicate IsPlace(es: seq<Event>, key: int, i: int) {
    && 0 <= i <= |es|
    && (if IsTime(es, key) then i < |es| && es[i].at == key
        else (forall j :: 0 <= j < i ==> es[j].at < key) && (forall j :: i <= j < |es| ==> key < es[j].at))
  }

  /** The search between `l` and `u`. Of several events with the time of the key it finds one. */
  function Bisect(es: seq<Event>, key: int, l: int, u: int): (place: int)
    requires 0 <= l <= u + 1 <= |es|
    ensures l <= place <= u + 1
    decreases u - l
  {
    if l > u then l
    else
      var i := (l + u) / 2;
      if key == es[i].at then i
      else if key < es[i].at then Bisect(es, key, l, i - 1)
      else Bisect(es, key, i + 1, u)
  }

  function Place(es: seq<Event>, key: int): int {
    Bisect(es, key, 0, |es| - 1)
  }

  class TimelineEvent {
    var events: seq<Event>

    constructor ()
      ensures events == []
    {
      events := [];
    }

    method AddEvent(e: Event)
      modifies this
      ensures events == old(events) + [e]
    {
      events := events + [e];
    }

    method Search(key: int) returns (place: int)
      ensures place == Place(events, key)
      ensures InOrder(events) ==> IsPlace(events, key, place)
    {
      if InOrder(events) {
        PlaceIsPlace(events, key);
      }
      hide InOrder, IsPlace;
      var l, u := 0, |events| - 1;
      while l <= u
        invariant 0 <= l <= u + 1 <= |events|
        invariant Bisect(events, key, l, u) == Place(events, key)
        decreases u - l
      {
        var i := (l + u) / 2;
        if key == events[i].at {
          return i;
        } else if key < events[i].at {
          u := i - 1;
        } else {
          l := i + 1;
        }
      }
      return l;
    }

    method GetEventsBounds(start: int, end: int) returns (lo: int, hi: int)
      ensures lo == Place(events, start) && hi == Place(events, end) + 1
      ensures InOrder(events) ==> IsPlace(events, start, lo) && IsPlace(events, end, hi - 1)
    {
      var s := Search(start);
      var e := Search(end);
      return s, e + 1;
    }

    method GetEvents(start: int, end: int) returns (selected: seq<Event>)
      ensures selected == Slice(events, Place(events, start), Place(events, end) + 1)
    {
      var s := Search(start);
      var e := Search(end);
      return Slice(events, s, e + 1);
    }
  }

  ghost predicate Distinct(es: seq<Event>) {
    forall i, j :: 0 <= i < j < |es| ==> es[i].at != es[j].at
  }

  ghost predicate Within(es: seq<Event>, i: int, start: int, end: int)
    requires 0 <= i < |es|
  {
    start <= es[i].at <= end
  }

  /**
   On distinct times the bounds cover all events of the interval and at most one more, the next
   one after it; and that one just when it exists and no event is at the end of the interval.
   */
  lemma EventsBounds(es: seq<Event>, start: int, end: int, lo: int, hi: int)
    requires InOrder(es) && Distinct(es) && start <= end
    requires IsPlace(es, start, lo) && IsPlace(es, end, hi - 1)
    ensures forall i :: 0 <= i < |es| && Within(es, i, start, end) ==> lo <= i < hi
    ensures forall i :: 0 <= i < |es| && lo <= i < hi && !Within(es, i, start, end) ==>
              i == hi - 1 && end < es[i].at && !IsTime(es, end) && (i > 0 ==> es[i - 1].at < end)
    ensures !IsTime(es, end) && hi - 1 < |es| ==> lo <= hi - 1 && end < es[hi - 1].at
  {
    var e := hi - 1;
    PlacesInOrder(es, start, end, lo, e);
    forall i | 0 <= i < |es| && Within(es, i, start, end) ensures lo <= i < hi {
      if !(lo <= i < hi) {
        DroppedEventsHaveTwins(es, start, end, lo, hi, i);
      }
    }
    forall i | lo <= i < hi && i < |es| && !Within(es, i, start, end)
      ensures i == e && end < es[i].at && !IsTime(es, end) && (i > 0 ==> es[i - 1].at < end)
    {
      assert start <= es[lo].at <= es[i].at;
      assert es[i].at <= es[e].at;
    }
  }

  lemma PlacesInOrder(es: seq<Event>, start: int, end: int, lo: int, e: int)
    requires InOrder(es) && Distinct(es) && start <= end && IsPlace(es, start, lo) && IsPlace(es, end, e)
    ensures lo <= e
    ensures lo < |es| ==> start <= es[lo].at
    ensures !IsTime(es, end) && e < |es| ==> end < es[e].at
  {
    assert forall j :: 0 <= j < lo ==> es[j].at < start;
    assert e < |es| ==> end <= es[e].at;
  }

  /**
   With several events at one time, an event of the interval is dropped only if it shares the
   time of an endpoint with another event.
   */
  lemma DroppedEventsHaveTwins(es: seq<Event>, start: int, end: int, lo: int, hi: int, i: int)
    requires InOrder(es) && IsPlace(es, start, lo) && IsPlace(es, end, hi - 1)
    requires 0 <= i < |es| && Within(es, i, start, end) && !(lo <= i < hi)
    ensures es[i].at == start || es[i].at == end
    ensures exists j :: 0 <= j < |es| && j != i && es[j].at == es[i].at
  {
  }

  ghost predicate OnceAtMost(es: seq<Event>, key: int) {
    forall i, j :: 0 <= i < j < |es| && es[i].at == key ==> es[j].at != key
  }

  /** No event of the interval is outside the bounds. */
  ghost predicate Covers(es: seq<Event>, start: int, end: int, lo: int, hi: int) {
    forall i :: 0 <= i < |es| && Within(es, i, start, end) ==> lo <= i < hi
  }

  /** The events at one time are those from `a` to before `b`; without any, both are where one would be inserted. */
  ghost predicate IsBlock(es: seq<Event>, key: int, a: int, b: int) {
    && 0 <= a <= b <= |es|
    && (forall j :: 0 <= j < a ==> es[j].at < key)
    && (forall j :: a <= j < b ==> es[j].at == key)
    && (forall j :: b <= j < |es| ==> key < es[j].at)
  }

  /** The number of events before the time of the key, or up to it. */
  function Lower(es: seq<Event>, key: int): nat {
    if es == [] || es[0].at >= key then 0 else 1 + Lower(es[1..], key)
  }

  function Upper(es: seq<Event>, key: int): nat {
    if es == [] || es[0].at > key then 0 else 1 + Upper(es[1..], key)
  }

  lemma {:induction false} BlockBounds(es: seq<Event>, key: int)
    requires InOrder(es)
    ensures IsBlock(es, key, Lower(es, key), Upper(es, key))
  {
    if es != [] {
      BlockBounds(es[1..], key);
      assert forall j :: 0 < j < |es| ==> es[j] == es[1..][j - 1];
    }
  }

  /** The first midpoint between `l` and `u` that falls into `a` to before `b`: no event is looked at. */
  function Probe(l: int, u: int, a: int, b: int): int
    decreases u - l
  {
    if l > u then l
    else
      var i := (l + u) / 2;
      if a <= i < b then i else if b <= i then Probe(l, i - 1, a, b) else Probe(i + 1, u, a, b)
  }

  /** Where the search ends depends only on where the events of that time are. */
  lemma {:induction false} BisectIsProbe(es: seq<Event>, key: int, a: int, b: int, l: int, u: int)
    requires IsBlock(es, key, a, b) && 0 <= l <= a && b - 1 <= u < |es| && l <= u + 1
    ensures Bisect(es, key, l, u) == Probe(l, u, a, b)
    ensures if a < b then a <= Bisect(es, key, l, u) < b else Bisect(es, key, l, u) == a
    decreases u - l
  {
    if l <= u {
      var i := (l + u) / 2;
      if b <= i {
        BisectIsProbe(es, key, a, b, l, i - 1);
      } else if i < a {
        BisectIsProbe(es, key, a, b, i + 1, u);
      }
    }
  }

  lemma PlaceIsPlace(es: seq<Event>, key: int)
    requires InOrder(es)
    ensures IsPlace(es, key, Place(es, key))
  {
    hide Bisect;
    BlockBounds(es, key);
    BisectIsProbe(es, key, Lower(es, key), Upper(es, key), 0, |es| - 1);
  }

  /**
   The bounds cover all events of the interval if and only if the search finds the first of the
   events at its start, if there are any, and the last of those at its end.
   */
  lemma EventsCoveredWhen(es: seq<Event>, start: int, end: int)
    requires InOrder(es) && start <= end
    ensures var (a, b, c, d) := (Lower(es, start), Upper(es, start), Lower(es, end), Upper(es, end));
            Covers(es, start, end, Place(es, start), Place(es, end) + 1) <==>
            && (a < b ==> Probe(0, |es| - 1, a, b) == a)
            && (c < d ==> Probe(0, |es| - 1, c, d) == d - 1)
  {
    hide Bisect, Probe, Lower, Upper;
    var a, b, c, d := Lower(es, start), Upper(es, start), Lower(es, end), Upper(es, end);
    BlockBounds(es, start);
    BlockBounds(es, end);
    BisectIsProbe(es, start, a, b, 0, |es| - 1);
    BisectIsProbe(es, end, c, d, 0, |es| - 1);
    WithinIsBetween(es, start, end, a, b, c, d);
    var lo, e := Place(es, start), Place(es, end);
    if Covers(es, start, end, lo, e + 1) {
      assert a < b ==> Within(es, a, start, end);
      assert c < d ==> Within(es, d - 1, start, end);
    }
  }

  lemma WithinIsBetween(es: seq<Event>, start: int, end: int, a: int, b: int, c: int, d: int)
    requires start <= end && IsBlock(es, start, a, b) && IsBlock(es, end, c, d)
    ensures forall i :: 0 <= i < |es| ==> (Within(es, i, start, end) <==> a <= i < d)
  {
  }

  /** In particular they do if neither endpoint is the time of several events. */
  lemma CoveredIfOnce(es: seq<Event>, start: int, end: int)
    requires InOrder(es) && start <= end && OnceAtMost(es, start) && OnceAtMost(es, end)
    ensures Covers(es, start, end, Place(es, start), Place(es, end) + 1)
  {
    hide Bisect, Probe, Lower, Upper;
    EventsCoveredWhen(es, start, end);
    OneOrNone(es, start);
    OneOrNone(es, end);
    BisectIsProbe(es, start, Lower(es, start), Upper(es, start), 0, |es| - 1);
    BisectIsProbe(es, end, Lower(es, end), Upper(es, end), 0, |es| - 1);
  }

  lemma OneOrNone(es: seq<Event>, key: int)
    requires InOrder(es) && OnceAtMost(es, key)
    ensures IsBlock(es, key, Lower(es, key), Upper(es, key)) && Upper(es, key) <= Lower(es, key) + 1
  {
    BlockBounds(es, key);
  }

  /** Three events at the start of the interval: the search finds the second, and the first is dropped. */
  lemma AnEventCanBeDropped()
    ensures var es := [Event(5, "a"), Event(5, "b"), Event(5, "c")];
            && InOrder(es) && Place(es, 5) == 1 && Place(es, 9) == 3
            && Within(es, 0, 5, 9) && !Covers(es, 5, 9, Place(es, 5), Place(es, 9) + 1)
  {
    var es := [Event(5, "a"), Event(5, "b"), Event(5, "c")];
    assert es[1].at == 5 && es[2].at == 5 && Within(es, 0, 5, 9);
    assert Bisect(es, 9, 3, 2) == 3 && Bisect(es, 9, 2, 2) == 3;
  }
}
