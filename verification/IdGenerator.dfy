/** Free object ids kept as sorted ranges, with a cursor on the range that ids are taken from. */
module IdGenerator {
  const MIN_ID := 1
  const MAX_ID := 0x7FFF_FFFE

  datatype Range = Range(first: nat, last: nat)

  predicate InRange(r: Range, k: int)
  {
    r.first <= k <= r.last
  }

  ghost predicate Free(rs: seq<Range>, k: int)
  {
    exists i :: 0 <= i < |rs| && InRange(rs[i], k)
  }

  /** Not empty, in order, with a gap between neighbours. */
  ghost predicate Separated(rs: seq<Range>)
  {
    && (forall i | 0 <= i < |rs| :: MIN_ID <= rs[i].first <= rs[i].last <= MAX_ID)
    && (forall i, j | 0 <= i < j < |rs| :: rs[i].last + 1 < rs[j].first)
  }

  /** The number of ranges that begin before k: std::lower_bound. */
  function LowerBound(rs: seq<Range>, k: nat): (n: nat)
    ensures n <= |rs| && (forall i | 0 <= i < n :: rs[i].first < k) && (n < |rs| ==> rs[n].first >= k)
  {
    if rs == [] || rs[0].first >= k then 0 else 1 + LowerBound(rs[1..], k)
  }

  /** The number of ranges that begin at or before k: std::upper_bound. */
  function UpperBound(rs: seq<Range>, k: nat): (n: nat)
    ensures n <= |rs| && (forall i | 0 <= i < n :: rs[i].first <= k) && (n < |rs| ==> rs[n].first > k)
  {
    if rs == [] || rs[0].first > k then 0 else 1 + UpperBound(rs[1..], k)
  }

  /** rs with the ranges from i up to j replaced. */
  function Splice(rs: seq<Range>, i: nat, mid: seq<Range>, j: nat): (ts: seq<Range>)
    requires i <= j <= |rs|
    ensures |ts| == i + |mid| + |rs| - j
  {
    rs[..i] + mid + rs[j..]
  }

  lemma FreeConcat(a: seq<Range>, b: seq<Range>, k: int)
    ensures Free(a + b, k) <==> Free(a, k) || Free(b, k)
  {
    if Free(a, k) {
      var i :| 0 <= i < |a| && InRange(a[i], k);
      assert InRange((a + b)[i], k);
    }
    if Free(b, k) {
      var i :| 0 <= i < |b| && InRange(b[i], k);
      assert InRange((a + b)[|a| + i], k);
    }
    if Free(a + b, k) {
      var i :| 0 <= i < |a + b| && InRange((a + b)[i], k);
      assert if i < |a| then InRange(a[i], k) else InRange(b[i - |a|], k);
    }
  }

  lemma SpliceFree(rs: seq<Range>, i: nat, mid: seq<Range>, j: nat, k: int)
    requires i <= j <= |rs|
    ensures Free(Splice(rs, i, mid, j), k) <==> Free(rs[..i], k) || Free(mid, k) || Free(rs[j..], k)
    ensures Free(rs, k) <==> Free(rs[..i], k) || Free(rs[i..j], k) || Free(rs[j..], k)
  {
    hide Free;
    FreeConcat(rs[..i] + mid, rs[j..], k);
    FreeConcat(rs[..i], mid, k);
    assert rs == rs[..i] + rs[i..j] + rs[j..];
    FreeConcat(rs[..i] + rs[i..j], rs[j..], k);
    FreeConcat(rs[..i], rs[i..j], k);
  }

  lemma SpliceSeparated(rs: seq<Range>, i: nat, mid: seq<Range>, j: nat)
    requires Separated(rs) && i <= j <= |rs| && |mid| <= 1
    requires mid != [] ==> MIN_ID <= mid[0].first <= mid[0].last <= MAX_ID
    requires mid != [] && i > 0 ==> rs[i - 1].last + 1 < mid[0].first
    requires mid != [] && j < |rs| ==> mid[0].last + 1 < rs[j].first
    ensures Separated(Splice(rs, i, mid, j))
  {
    var ts := Splice(rs, i, mid, j);
    forall a | 0 <= a < |ts| ensures MIN_ID <= ts[a].first <= ts[a].last <= MAX_ID {
      SpliceAt(rs, i, mid, j, a);
    }
    forall a, b | 0 <= a < b < |ts| ensures ts[a].last + 1 < ts[b].first {
      hide Splice, Separated;
      SpliceGap(rs, i, mid, j, a, b);
    }
  }

  lemma SpliceGap(rs: seq<Range>, i: nat, mid: seq<Range>, j: nat, a: nat, b: nat)
    requires Separated(rs) && i <= j <= |rs| && |mid| <= 1 && a < b < |Splice(rs, i, mid, j)|
    requires mid != [] && i > 0 ==> rs[i - 1].last + 1 < mid[0].first
    requires mid != [] && j < |rs| ==> mid[0].last + 1 < rs[j].first
    ensures Splice(rs, i, mid, j)[a].last + 1 < Splice(rs, i, mid, j)[b].first
  {
    SpliceAt(rs, i, mid, j, a);
    SpliceAt(rs, i, mid, j, b);
    hide Splice, Separated;
    var shift := j - i - |mid|;
    if b < i {
      GapTo(rs, a, b);
    } else if i + |mid| <= a {
      GapTo(rs, a + shift, b + shift);
    } else if i <= a {
      GapTo(rs, j, b + shift);
    } else if i + |mid| <= b {
      GapTo(rs, a, b + shift);
    } else {
      GapTo(rs, a, i - 1);
    }
  }

  lemma GapTo(rs: seq<Range>, p: nat, q: nat)
    requires Separated(rs) && p <= q < |rs|
    ensures p == q || rs[p].last + 1 < rs[q].first
    ensures rs[p].first <= rs[q].first && rs[p].last <= rs[q].last
  {
  }

  lemma SpliceAt(rs: seq<Range>, i: nat, mid: seq<Range>, j: nat, a: nat)
    requires i <= j <= |rs| && a < |Splice(rs, i, mid, j)|
    ensures |Splice(rs, i, mid, j)| == i + |mid| + |rs| - j
    ensures Splice(rs, i, mid, j)[a] == if a < i then rs[a] else if a < i + |mid| then mid[a - i]
            else rs[a - |mid| - i + j]
  {
  }

  lemma FreeSmall(rs: seq<Range>, k: int)
    requires |rs| <= 2
    ensures Free(rs, k) <==> (|rs| > 0 && InRange(rs[0], k)) || (|rs| > 1 && InRange(rs[1], k))
  {
  }

  /** Every id in mine is less than every id in a separated tail, and so on: an id lies in one part only. */
  lemma NotElsewhere(rs: seq<Range>, i: nat, j: nat, k: int)
    requires Separated(rs) && i <= j <= |rs| && i < j && rs[i].first <= k <= rs[j - 1].last
    ensures !Free(rs[..i], k) && !Free(rs[j..], k)
  {
    forall p | 0 <= p < i ensures !InRange(rs[..i][p], k) {
      assert rs[p].last + 1 < rs[i].first;
    }
    forall p | 0 <= p < |rs[j..]| ensures !InRange(rs[j..][p], k) {
      assert rs[j..][p] == rs[j + p] && rs[j - 1].last + 1 < rs[j + p].first;
    }
  }

  lemma TakeId(rs: seq<Range>, i: nat, mid: seq<Range>)
    requires Separated(rs) && i < |rs|
    requires mid == if rs[i].first < rs[i].last then [Range(rs[i].first + 1, rs[i].last)] else []
    ensures Separated(Splice(rs, i, mid, i + 1))
    ensures forall k :: Free(Splice(rs, i, mid, i + 1), k) <==> Free(rs, k) && k != rs[i].first
  {
    hide Free, Separated;
    SpliceGaps(rs, i, mid);
    forall k ensures Free(Splice(rs, i, mid, i + 1), k) <==> Free(rs, k) && k != rs[i].first {
      SpliceFree(rs, i, mid, i + 1, k);
      FreeSmall(mid, k);
      FreeSmall(rs[i..i + 1], k);
      assert rs[i..i + 1] == [rs[i]];
      if InRange(rs[i], k) {
        NotElsewhere(rs, i, i + 1, k);
      }
    }
  }

  lemma SpliceGaps(rs: seq<Range>, i: nat, mid: seq<Range>)
    requires Separated(rs) && i < |rs|
    requires mid == if rs[i].first < rs[i].last then [Range(rs[i].first + 1, rs[i].last)] else []
    ensures Separated(Splice(rs, i, mid, i + 1)) && rs[i].first <= rs[i].last
  {
    SpliceSeparated(rs, i, mid, i + 1);
  }

  /** val joins the ranges from i up to j, which it touches, or stands alone. */
  lemma AddId(rs: seq<Range>, i: nat, joined: Range, j: nat, val: nat)
    requires Separated(rs) && i <= j <= |rs| && j - i <= 2 && MIN_ID <= val <= MAX_ID
    requires i > 0 ==> rs[i - 1].last + 1 < joined.first
    requires j < |rs| ==> joined.last + 1 < rs[j].first
    requires MIN_ID <= joined.first <= joined.last <= MAX_ID
    requires forall k ::
               InRange(joined, k) <==> (i < j && InRange(rs[i], k)) || (i + 1 < j && InRange(rs[i + 1], k)) || k == val
    ensures Separated(Splice(rs, i, [joined], j))
    ensures forall k :: Free(Splice(rs, i, [joined], j), k) <==> Free(rs, k) || k == val
  {
    SpliceSeparated(rs, i, [joined], j);
    hide Free, Separated;
    forall k ensures Free(Splice(rs, i, [joined], j), k) <==> Free(rs, k) || k == val {
      SpliceFree(rs, i, [joined], j, k);
      FreeSmall([joined], k);
      FreeSmall(rs[i..j], k);
    }
  }

  lemma TakeWhole(rs: seq<Range>, i: nat)
    requires Separated(rs) && i < |rs| && rs[i].first + 1 > rs[i].last
    ensures Separated(rs[..i] + rs[i + 1..])
    ensures forall k :: Free(rs[..i] + rs[i + 1..], k) <==> Free(rs, k) && k != rs[i].first
  {
    TakeId(rs, i, []);
    assert rs[..i] + rs[i + 1..] == Splice(rs, i, [], i + 1);
    hide Splice, Free, Separated;
  }

  lemma TakeFirst(rs: seq<Range>, i: nat)
    requires Separated(rs) && i < |rs| && rs[i].first < rs[i].last
    ensures Separated(rs[i := Range(rs[i].first + 1, rs[i].last)])
    ensures forall k :: Free(rs[i := Range(rs[i].first + 1, rs[i].last)], k) <==> Free(rs, k) && k != rs[i].first
  {
    var mid := [Range(rs[i].first + 1, rs[i].last)];
    TakeId(rs, i, mid);
    assert rs[i := mid[0]] == Splice(rs, i, mid, i + 1);
    hide Splice, Free, Separated;
  }

  lemma GrowRange(rs: seq<Range>, i: nat, grown: Range, val: nat)
    requires Separated(rs) && i < |rs| && MIN_ID <= val <= MAX_ID && MIN_ID <= grown.first <= grown.last <= MAX_ID
    requires i > 0 ==> rs[i - 1].last + 1 < grown.first
    requires i + 1 < |rs| ==> grown.last + 1 < rs[i + 1].first
    requires forall k :: InRange(grown, k) <==> InRange(rs[i], k) || k == val
    ensures Separated(rs[i := grown]) && forall k :: Free(rs[i := grown], k) <==> Free(rs, k) || k == val
  {
    AddId(rs, i, grown, i + 1, val);
    assert rs[i := grown] == Splice(rs, i, [grown], i + 1);
    hide Splice, Free, Separated;
  }

  /** Where the neighbours of a free place end and begin. */
  lemma Gaps(rs: seq<Range>, right: nat)
    requires Separated(rs) && right <= |rs|
    ensures forall i | 0 <= i < |rs| :: MIN_ID <= rs[i].first <= rs[i].last <= MAX_ID
    ensures right > 1 ==> rs[right - 2].last + 1 < rs[right - 1].first
    ensures 0 < right < |rs| ==> rs[right - 1].last + 1 < rs[right].first
    ensures right + 1 < |rs| ==> rs[right].last + 1 < rs[right + 1].first
  {
  }

  lemma FreeInLeft(rs: seq<Range>, val: nat, right: nat)
    requires Separated(rs) && right == LowerBound(rs, val) && !Free(rs, val)
    ensures right > 0 ==> rs[right - 1].last < val
    ensures right < |rs| ==> val < rs[right].first
  {
    if right > 0 {
      assert !InRange(rs[right - 1], val);
    }
    if right < |rs| {
      assert !InRange(rs[right], val);
    }
  }

  /** std::lower_bound over the ranges, which are in order. */
  method FirstFrom(rs: seq<Range>, k: nat) returns (first: nat)
    requires Separated(rs)
    ensures first == LowerBound(rs, k)
  {
    first := 0;
    var count := |rs|;
    while count > 0
      invariant first <= LowerBound(rs, k) <= first + count <= |rs|
    {
      var half := count / 2;
      BoundSplits(rs, k, first + half);
      if rs[first + half].first < k {
        first := first + half + 1;
        count := count - half - 1;
      } else {
        count := half;
      }
    }
  }

  lemma BoundSplits(rs: seq<Range>, k: nat, mid: nat)
    requires Separated(rs) && mid < |rs|
    ensures rs[mid].first < k <==> mid < LowerBound(rs, k)
  {
    var n := LowerBound(rs, k);
    if n < mid {
      GapTo(rs, n, mid);
    }
  }

  /** Range i begins with the next free id above id, or with the least free id if there is none above. */
  ghost predicate NextAfter(rs: seq<Range>, i: nat, id: nat)
  {
    && i < |rs|
    && (forall k | Free(rs, k) && k > id :: id < rs[i].first <= k)
    && ((forall k | Free(rs, k) :: k <= id) ==> forall k | Free(rs, k) :: rs[i].first <= k)
  }

  lemma NextAbove(rs: seq<Range>, i: nat, id: nat)
    requires Separated(rs) && i < |rs| && id < rs[i].first && forall j | 0 <= j < i :: rs[j].last < id
    ensures NextAfter(rs, i, id)
  {
    forall k | Free(rs, k) && k > id ensures rs[i].first <= k {
      var j :| 0 <= j < |rs| && InRange(rs[j], k);
    }
    assert InRange(rs[i], rs[i].first);
    assert Free(rs, rs[i].first);
  }

  lemma NextLeast(rs: seq<Range>, id: nat)
    requires Separated(rs) && rs != [] && rs[|rs| - 1].last < id
    ensures NextAfter(rs, 0, id)
  {
    forall k | Free(rs, k) ensures rs[0].first <= k < id {
      var j :| 0 <= j < |rs| && InRange(rs[j], k);
      assert j < |rs| - 1 ==> rs[j].last + 1 < rs[|rs| - 1].first;
      assert j > 0 ==> rs[0].last + 1 < rs[j].first;
    }
  }

  lemma AfterWhole(rs: seq<Range>, i: nat)
    requires Separated(rs) && i < |rs| && rs[i].first == rs[i].last
    ensures var ts, id := rs[..i] + rs[i + 1..], rs[i].first;
            ts != [] ==> NextAfter(ts, if i < |ts| then i else 0, id)
  {
    var ts, id := rs[..i] + rs[i + 1..], rs[i].first;
    assert Separated(ts) by {
      TakeWhole(rs, i);
    }
    if i < |ts| {
      assert ts[i] == rs[i + 1];
      NextAbove(ts, i, id);
    } else if ts != [] {
      assert ts[|ts| - 1] == rs[i - 1];
      NextLeast(ts, id);
    }
  }

  lemma AfterFirst(rs: seq<Range>, i: nat)
    requires Separated(rs) && i < |rs| && rs[i].first < rs[i].last
    ensures NextAfter(rs[i := Range(rs[i].first + 1, rs[i].last)], i, rs[i].first)
  {
    TakeFirst(rs, i);
    NextAbove(rs[i := Range(rs[i].first + 1, rs[i].last)], i, rs[i].first);
  }

  class Generator {
    var ranges: seq<Range>
    var cursor: nat

    ghost predicate Valid()
      reads this
    {
      Separated(ranges) && cursor <= |ranges|
    }

    /** The iterator can be dereferenced. */
    predicate CursorOk()
      reads this
    {
      cursor < |ranges|
    }

    constructor ()
      ensures Valid() && CursorOk() && forall k :: Free(ranges, k) <==> 1 <= k <= 0x7FFF_FFFE
    {
      ranges, cursor := [Range(MIN_ID, MAX_ID)], 0;
      new;
      assert forall k :: InRange(ranges[0], k) <==> MIN_ID <= k <= MAX_ID;
    }

    /** Hands out the id at the cursor, which then is at the next free one above, or else at the least. It is off
        exactly if no id is left. */
    method NewId() returns (id: nat)
      requires Valid() && CursorOk()
      modifies this
      ensures Valid() && MIN_ID <= id <= MAX_ID
      ensures Free(old(ranges), id) && forall k :: Free(ranges, k) <==> Free(old(ranges), k) && k != id
      ensures CursorOk() <==> ranges != []
      ensures id == old(ranges)[old(cursor)].first && (CursorOk() ==> NextAfter(ranges, cursor, id))
    {
      var rn := ranges[cursor];
      id := rn.first;
      assert InRange(rn, id);
      if rn.first + 1 > rn.last {
        TakeWhole(ranges, cursor);
        assert rn.first == rn.last;
        AfterWhole(ranges, cursor);
        hide Separated, Free, NextAfter;
        ranges := ranges[..cursor] + ranges[cursor + 1..];
        if cursor == |ranges| {
          cursor := 0;
        }
      } else {
        TakeFirst(ranges, cursor);
        AfterFirst(ranges, cursor);
        hide Separated, Free, NextAfter;
        ranges := ranges[cursor := Range(rn.first + 1, rn.last)];
      }
    }

    /** Takes an issued id back. The cursor is a valid position afterwards exactly if it was one before:
        on a generator that has handed out every id it ends up behind the new range. */
    method ReuseId(val: nat)
      requires Valid() && MIN_ID <= val <= MAX_ID && !Free(ranges, val)
      modifies this
      ensures Valid() && forall k :: Free(ranges, k) <==> Free(old(ranges), k) || k == val
      ensures CursorOk() <==> old(CursorOk())
    {
      hide Separated, Free, Splice;
      var right := FirstFrom(ranges, val);
      FreeInLeft(ranges, val, right);
      Gaps(ranges, right);
      var leftRange := right > 0 && ranges[right - 1].last + 1 == val;
      var rightRange := right < |ranges| && ranges[right].first - 1 == val;
      if !leftRange && !rightRange {
        AddId(ranges, right, Range(val, val), right, val);
        cursor := cursor + (if cursor < right then 0 else 1);
        ranges := Splice(ranges, right, [Range(val, val)], right);
      } else if rightRange && leftRange {
        var merged := Range(ranges[right - 1].first, ranges[right].last);
        AddId(ranges, right - 1, merged, right + 1, val);
        cursor := cursor - (if cursor < right then 0 else 1);
        ranges := Splice(ranges, right - 1, [merged], right + 1);
      } else if leftRange {
        var grown := Range(ranges[right - 1].first, val);
        GrowRange(ranges, right - 1, grown, val);
        ranges := ranges[right - 1 := grown];
      } else {
        var grown := Range(val, ranges[right].last);
        GrowRange(ranges, right, grown, val);
        ranges := ranges[right := grown];
      }
    }

    predicate IsFreeId(val: nat): (free: bool)
      requires Valid()
      reads this
      ensures free <==> Free(ranges, val)
    {
      var right := UpperBound(ranges, val);
      FreeIsLeft(ranges, val, right);
      right > 0 && ranges[right - 1].first <= val < ranges[right - 1].last + 1
    }

    /** The self-check of the original: on separated ranges it reports whether the cursor is valid. */
    method IsValid() returns (ok: bool)
      requires Valid()
      ensures ok <==> CursorOk()
    {
      var noOverlap := true;
      var i := 1;
      while i < |ranges| && noOverlap
        invariant noOverlap
      {
        var prev, curr := ranges[i - 1], ranges[i];
        noOverlap := prev.first < curr.first && prev.last + 1 < curr.last + 1;
        i := i + 1;
      }
      ok := ranges != [] && cursor != |ranges| && noOverlap;
    }
  }

  /** The last id taken and given back: it is free, but the generator cannot hand it out again. */
  method LastIdAndBack(g: Generator) returns (id: nat)
    requires g.Valid() && g.CursorOk() && forall k | Free(g.ranges, k) :: k == g.ranges[g.cursor].first
    modifies g
    ensures g.Valid() && Free(g.ranges, id) && !g.CursorOk()
  {
    hide Separated;
    id := g.NewId();
    SomeFree(g.ranges);
    g.ReuseId(id);
  }

  lemma SomeFree(rs: seq<Range>)
    requires Separated(rs)
    ensures rs != [] <==> exists k :: Free(rs, k)
  {
    if rs != [] {
      assert InRange(rs[0], rs[0].first) && Free(rs, rs[0].first);
    }
  }

  lemma FreeIsLeft(rs: seq<Range>, val: nat, right: nat)
    requires Separated(rs) && right == UpperBound(rs, val)
    ensures Free(rs, val) <==> right > 0 && InRange(rs[right - 1], val)
  {
    assert forall j | right <= j < |rs| :: rs[right].first <= rs[j].first;
    assert forall j | 0 <= j < right - 1 :: rs[j].last + 1 < rs[right - 1].first;
  }
}
