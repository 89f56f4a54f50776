/** Splitting an archive into parts at cluster boundaries: the greedy cut plan, and the copy by the cuts. */
module Split {
  import opened Outcome
  import opened Bytes
  import opened Text

  const MAX_PARTS: nat := 676

  ghost predicate Rising(s: seq<nat>) {
    forall i, j :: 0 <= i < j < |s| ==> s[i] < s[j]
  }

  /** Cut positions: cluster starts in file order, then the end of the file. */
  ghost predicate EndsAt(bs: seq<nat>, total: nat) {
    Rising(bs) && |bs| > 0 && bs[|bs| - 1] == total
  }

  /** None of them is the start of the file. */
  ghost predicate Bounds(bs: seq<nat>, total: nat) {
    EndsAt(bs, total) && bs[0] > 0
  }

  // ---- Splits ----

  function Start(ends: seq<nat>, i: nat): nat
    requires i <= |ends|
  {
    if i == 0 then 0 else ends[i - 1]
  }

  ghost predicate PartFits(ends: seq<nat>, size: nat, i: nat)
    requires i < |ends|
  {
    Start(ends, i) < ends[i] <= Start(ends, i) + size
  }

  /** `ends` cuts the file into parts of at most `size` bytes, at boundaries only. */
  ghost predicate IsSplit(bs: seq<nat>, size: nat, ends: seq<nat>) {
    && |bs| > 0 && ends != [] && ends[|ends| - 1] == bs[|bs| - 1]
    && (forall i :: 0 <= i < |ends| ==> ends[i] in bs)
    && (forall i :: 0 <= i < |ends| ==> PartFits(ends, size, i))
  }

  /** The distance from boundary `i` back to the one before it. */
  function Gap(bs: seq<nat>, i: nat): nat
    requires i < |bs|
  {
    if i == 0 then bs[0] else if bs[i - 1] <= bs[i] then bs[i] - bs[i - 1] else 0
  }

  ghost predicate Divisible(bs: seq<nat>, size: nat) {
    forall i :: 0 <= i < |bs| ==> Gap(bs, i) <= size
  }

  // ---- Planning ----

  /** Sorts the offsets and drops repetitions. */
  method SortDedup(offsets: seq<nat>) returns (bs: seq<nat>)
    ensures Rising(bs) && forall x :: x in bs <==> x in offsets
  {
    bs := [];
    for k := 0 to |offsets|
      invariant Rising(bs) && forall x :: x in bs <==> x in offsets[..k]
    {
      var x := offsets[k];
      assert offsets[..k + 1] == offsets[..k] + [x];
      if x !in bs {
        var p := 0;
        while p < |bs| && bs[p] < x
          invariant 0 <= p <= |bs| && forall i :: 0 <= i < p ==> bs[i] < x
        {
          p := p + 1;
        }
        assert bs == bs[..p] + bs[p..];
        bs := bs[..p] + [x] + bs[p..];
      }
    }
    assert offsets[..|offsets|] == offsets;
  }

  /** The cut plan so far: `ends` reaches `start`, the position before boundary `next`. */
  ghost predicate Planned(bs: seq<nat>, size: nat, force: bool, ends: seq<nat>, start: nat, next: nat) {
    && next <= |bs| && start == Start(ends, |ends|)
    && start == (if next == 0 then 0 else bs[next - 1])
    && (forall i :: 0 <= i < |ends| ==> ends[i] in bs)
    && (forall i :: 0 <= i < |ends| ==> PartPlanned(bs, size, force, ends, i))
  }

  /** A part fits, or it is forced and has no boundary inside. */
  ghost predicate PartPlanned(bs: seq<nat>, size: nat, force: bool, ends: seq<nat>, i: nat)
    requires i < |ends|
  {
    PartFits(ends, size, i) || (force && Start(ends, i) < ends[i] && forall b :: b in bs ==> b <= Start(ends, i) || ends[i] <= b)
  }

  /** No split of any kind gets further with as many parts. */
  ghost predicate Furthest(bs: seq<nat>, size: nat, ends: seq<nat>) {
    forall other, i :: IsSplit(bs, size, other) && 0 <= i < |ends| && i < |other| ==> other[i] <= ends[i]
  }

  lemma Reach(bs: seq<nat>, size: nat, ends: seq<nat>, start: nat, end: nat)
    requires Furthest(bs, size, ends) && start == Start(ends, |ends|)
    requires forall b :: b in bs && b <= start + size ==> b <= end
    ensures Furthest(bs, size, ends + [end])
  {
    forall other, i | IsSplit(bs, size, other) && 0 <= i < |ends| + 1 && i < |other|
      ensures other[i] <= (ends + [end])[i]
    {
      if i == |ends| {
        assert PartFits(other, size, i);
        assert i > 0 ==> other[i - 1] <= ends[i - 1];
        assert other[i] in bs;
      }
    }
  }

  /** A plan that has not reached the end has fewer parts than any split. */
  lemma Shorter(bs: seq<nat>, size: nat, ends: seq<nat>, other: seq<nat>)
    requires |bs| > 0 && Furthest(bs, size, ends) && IsSplit(bs, size, other) && Start(ends, |ends|) < bs[|bs| - 1]
    requires Rising(ends)
    ensures |ends| < |other|
  {
    assert forall i :: 0 <= i < |other| && i < |ends| ==> other[i] <= ends[i];
    assert forall i :: 0 <= i < |ends| - 1 ==> ends[i] < ends[|ends| - 1];
  }

  lemma {:induction false} PlannedRising(bs: seq<nat>, size: nat, force: bool, ends: seq<nat>, i: nat, j: nat)
    requires (forall k :: 0 <= k < |ends| ==> PartPlanned(bs, size, force, ends, k)) && i < j < |ends|
    ensures ends[i] < ends[j]
    decreases j
  {
    assert PartPlanned(bs, size, force, ends, j);
    if i < j - 1 {
      PlannedRising(bs, size, force, ends, i, j - 1);
    }
  }

  lemma PlanIsRising(bs: seq<nat>, size: nat, force: bool, ends: seq<nat>)
    requires forall k :: 0 <= k < |ends| ==> PartPlanned(bs, size, force, ends, k)
    ensures Rising(ends)
  {
    forall i, j | 0 <= i < j < |ends|
      ensures ends[i] < ends[j]
    {
      PlannedRising(bs, size, force, ends, i, j);
    }
  }

  lemma PartKept(bs: seq<nat>, size: nat, force: bool, ends: seq<nat>, end: nat, i: nat)
    requires i < |ends| && PartPlanned(bs, size, force, ends, i)
    ensures PartPlanned(bs, size, force, ends + [end], i)
  {
    assert Start(ends + [end], i) == Start(ends, i);
  }

  lemma NextPart(bs: seq<nat>, size: nat, force: bool, ends: seq<nat>, start: nat, next: nat, end: nat, after: nat)
    requires Rising(bs) && Planned(bs, size, force, ends, start, next) && next < after <= |bs| && end == bs[after - 1] && start < end
    requires end <= start + size || (force && after == next + 1)
    ensures Planned(bs, size, force, ends + [end], end, after)
  {
    var longer := ends + [end];
    forall i | 0 <= i < |longer|
      ensures PartPlanned(bs, size, force, longer, i)
    {
      if i < |ends| {
        PartKept(bs, size, force, ends, end, i);
      } else {
        assert Start(longer, i) == start;
        if after == next + 1 {
          forall b | b in bs
            ensures b <= start || end <= b
          {
            var k :| 0 <= k < |bs| && bs[k] == b;
            assert k < next ==> b <= start;
          }
        }
      }
    }
  }

  /** An indivisible region longer than `size` cannot be split. */
  lemma {:induction false} CoversGap(bs: seq<nat>, size: nat, ends: seq<nat>, g: nat, i: nat)
    requires Rising(bs) && IsSplit(bs, size, ends) && g < |bs| && i < |ends|
    requires bs[g] <= ends[i] && Start(ends, i) < bs[g]
    ensures Gap(bs, g) <= size
  {
    assert PartFits(ends, size, i);
    if i > 0 {
      assert ends[i - 1] in bs;
      var k :| 0 <= k < |bs| && bs[k] == ends[i - 1];
      assert k < g;
      assert k < g - 1 ==> bs[k] < bs[g - 1];
    }
  }

  lemma {:induction false} FirstReach(ends: seq<nat>, target: nat, n: nat) returns (i: nat)
    requires 0 < n <= |ends| && target <= ends[n - 1] && 0 < target
    ensures i < n && target <= ends[i] && Start(ends, i) < target
  {
    if n == 1 || ends[n - 2] < target {
      i := n - 1;
    } else {
      i := FirstReach(ends, target, n - 1);
    }
  }

  /** A file can be split exactly when no region between neighbouring boundaries exceeds the size. */
  lemma SplitExists(bs: seq<nat>, total: nat, size: nat)
    requires Bounds(bs, total)
    ensures Divisible(bs, size) <==> exists ends :: IsSplit(bs, size, ends)
  {
    if Divisible(bs, size) {
      forall i | 0 <= i < |bs|
        ensures PartFits(bs, size, i)
      {
        assert Gap(bs, i) <= size;
        assert i > 0 ==> bs[i - 1] < bs[i];
      }
      assert IsSplit(bs, size, bs);
    }
    if ends :| IsSplit(bs, size, ends) {
      forall g | 0 <= g < |bs|
        ensures Gap(bs, g) <= size
      {
        assert g < |bs| - 1 ==> bs[g] < bs[|bs| - 1];
        assert g > 0 ==> bs[0] < bs[g];
        var i := FirstReach(ends, bs[g], |ends|);
        CoversGap(bs, size, ends, g, i);
      }
    }
  }

  lemma GapTooBig(bs: seq<nat>, total: nat, size: nat, next: nat, start: nat)
    requires Bounds(bs, total) && next < |bs| && start == (if next == 0 then 0 else bs[next - 1]) && bs[next] > start + size
    ensures forall other :: !IsSplit(bs, size, other)
  {
    assert next > 0 ==> bs[next - 1] < bs[next];
    assert Gap(bs, next) > size;
    SplitExists(bs, total, size);
  }

  /** Extends the reach of one part as far as the size allows. */
  method LastWithin(bs: seq<nat>, next: nat, limit: nat) returns (after: nat)
    requires next <= |bs| && Rising(bs)
    ensures next <= after <= |bs|
    ensures forall i :: next <= i < after ==> bs[i] <= limit
    ensures forall i :: after <= i < |bs| ==> bs[i] > limit
  {
    after := next;
    while after < |bs| && bs[after] <= limit
      invariant next <= after <= |bs| && forall i :: next <= i < after ==> bs[i] <= limit
    {
      after := after + 1;
    }
    assert forall i :: after < i < |bs| ==> bs[after] < bs[i];
  }

  ghost predicate Valid(offsets: seq<nat>, mimeListPos: nat, total: nat) {
    forall i :: 0 <= i < |offsets| ==> mimeListPos <= offsets[i] < total
  }

  method Boundaries(offsets: seq<nat>, mimeListPos: nat, total: nat) returns (r: Result<seq<nat>>)
    ensures r.Ok? <==> Valid(offsets, mimeListPos, total)
    ensures r.Ok? ==> Rising(r.value) && |r.value| > 0 && r.value[|r.value| - 1] == total
    ensures r.Ok? ==> forall x :: x in r.value <==> x in offsets || x == total
    ensures r.Err? ==> r.error == InvalidInput
  {
    for i := 0 to |offsets|
      invariant forall j :: 0 <= j < i ==> mimeListPos <= offsets[j] < total
    {
      if offsets[i] < mimeListPos || offsets[i] >= total {
        return Err(InvalidInput);
      }
    }
    var bs := SortDedup(offsets);
    forall i | 0 <= i < |bs|
      ensures bs[i] < total
    {
      assert bs[i] in bs;
    }
    return Ok(bs + [total]);
  }

  /** The next cut: the last boundary within reach, or, forced, the next one whatever it takes. */
  method NextCut(bs: seq<nat>, total: nat, size: nat, force: bool, start: nat, next: nat) returns (r: Result<(nat, nat)>)
    requires EndsAt(bs, total) && next < |bs| && total < U64_LIMIT
    ensures r.Ok? ==> IsCut(bs, size, force, start, next, r.value.0, r.value.1)
    ensures r.Err? ==> r.error == InvalidInput && !force && bs[next] > start + size
  {
    var limit := if start + size >= U64_LIMIT then U64_LIMIT - 1 else start + size;
    var after := LastWithin(bs, next, limit);
    assert forall i :: 0 <= i < |bs| - 1 ==> bs[i] < bs[|bs| - 1];
    if after > next {
      return Ok((bs[after - 1], after));
    }
    if force {
      assert forall i :: next < i < |bs| ==> bs[next] < bs[i];
      return Ok((bs[next], next + 1));
    }
    return Err(InvalidInput);
  }

  ghost predicate IsCut(bs: seq<nat>, size: nat, force: bool, start: nat, next: nat, end: nat, after: nat) {
    && next < after <= |bs| && end == bs[after - 1]
    && (end <= start + size || (force && after == next + 1))
    && (forall i :: after <= i < |bs| ==> bs[i] > start + size)
  }

  /** The plan, the positions reached, and no split doing better. */
  ghost predicate OnCourse(bs: seq<nat>, total: nat, size: nat, force: bool, ends: seq<nat>, start: nat, next: nat) {
    && Planned(bs, size, force, ends, start, next) && Furthest(bs, size, ends) && start <= total
    && (start == total ==> next == |bs|)
  }

  lemma Cut(bs: seq<nat>, total: nat, size: nat, force: bool, ends: seq<nat>, start: nat, next: nat, end: nat, after: nat)
    requires Bounds(bs, total) && OnCourse(bs, total, size, force, ends, start, next) && start < total
    requires IsCut(bs, size, force, start, next, end, after)
    ensures OnCourse(bs, total, size, force, ends + [end], end, after)
    ensures forall other :: IsSplit(bs, size, other) ==> |ends| < |other|
  {
    PlanIsRising(bs, size, force, ends);
    FewerThanAny(bs, size, ends);
    GreedyReach(bs, size, ends, start, next, end, after);
    BoundsOrder(bs, total, start, next, after);
    NextPart(bs, size, force, ends, start, next, end, after);
  }

  ghost predicate Reached(bs: seq<nat>, start: nat, next: nat) {
    next <= |bs| && start == (if next == 0 then 0 else bs[next - 1])
  }

  lemma ReachedAll(bs: seq<nat>, total: nat, start: nat, next: nat)
    requires EndsAt(bs, total) && Reached(bs, start, next) && start < total
    ensures next < |bs|
  {
  }

  lemma ReachedNext(bs: seq<nat>, size: nat, force: bool, start: nat, next: nat, end: nat, after: nat)
    requires IsCut(bs, size, force, start, next, end, after)
    ensures next < after && Reached(bs, end, after)
  {
  }

  /** Cuts greedily. Without force the plan is a split with the fewest parts, and there is none exactly when every split
      needs more than 676 parts, or none exists; with force an oversized part has no boundary inside. All of this takes
      cluster offsets behind the start of the file. */
  method PartEnds(offsets: seq<nat>, mimeListPos: nat, total: nat, size: nat, force: bool)
    returns (r: Result<seq<nat>>, ghost bs: seq<nat>)
    requires total < U64_LIMIT && size < U64_LIMIT
    ensures !Valid(offsets, mimeListPos, total) ==> r == Err(InvalidInput)
    ensures Valid(offsets, mimeListPos, total) ==> EndsAt(bs, total) && forall x :: x in bs <==> x in offsets || x == total
    ensures Bounds(bs, total) && r.Ok? ==>
              && |r.value| <= MAX_PARTS && Planned(bs, size, force, r.value, total, |bs|) && r.value != []
              && (!force ==> IsSplit(bs, size, r.value))
              && forall other :: IsSplit(bs, size, other) ==> |r.value| <= |other|
    ensures Bounds(bs, total) && r.Err? && Valid(offsets, mimeListPos, total) && !force ==>
              forall other :: IsSplit(bs, size, other) ==> |other| > MAX_PARTS
  {
    bs := [];
    var bounds := Boundaries(offsets, mimeListPos, total);
    if bounds.Err? {
      return Err(bounds.error), bs;
    }
    var boundaries := bounds.value;
    bs := boundaries;
    FurthestStart(bs, size);
    var ends: seq<nat> := [];
    var start: nat, next: nat := 0, 0;
    assert Bounds(bs, total) ==> OnCourse(bs, total, size, force, ends, start, next);
    hide PartFits, PartPlanned, IsSplit, Bounds, EndsAt, Reached, Planned, Furthest, IsCut, OnCourse;
    Begins(bs);
    while start < total
      invariant EndsAt(bs, total) && Reached(bs, start, next) && |ends| <= MAX_PARTS
      invariant Bounds(bs, total) ==> OnCourse(bs, total, size, force, ends, start, next)
      invariant Bounds(bs, total) && start == total ==> forall other :: IsSplit(bs, size, other) ==> |ends| <= |other|
      decreases |bs| - next
    {
      ReachedAll(bs, total, start, next);
      var cut := NextCut(boundaries, total, size, force, start, next);
      if cut.Err? {
        if Bounds(bs, total) {
          CourseAhead(bs, total, size, force, ends, start, next);
          GapTooBig(bs, total, size, next, start);
        }
        return Err(cut.error), bs;
      }
      var (end, after) := cut.value;
      if Bounds(bs, total) {
        Cut(bs, total, size, force, ends, start, next, end, after);
      }
      ReachedNext(bs, size, force, start, next, end, after);
      ends := ends + [end];
      if |ends| > MAX_PARTS {
        return Err(InvalidInput), bs;
      }
      start := end;
      next := after;
    }
    if Bounds(bs, total) {
      CourseDone(bs, total, size, force, ends, start, next);
      PlannedSplit(bs, size, force, ends, total);
    }
    return Ok(ends), bs;
  }

  lemma Begins(bs: seq<nat>)
    ensures Reached(bs, 0, 0)
  {
  }

  lemma CourseDone(bs: seq<nat>, total: nat, size: nat, force: bool, ends: seq<nat>, start: nat, next: nat)
    requires Bounds(bs, total) && OnCourse(bs, total, size, force, ends, start, next) && start >= total
    ensures Planned(bs, size, force, ends, total, |bs|) && start == total > 0
  {
    assert forall i :: 0 <= i < |bs| ==> bs[i] <= total;
  }

  lemma CourseAhead(bs: seq<nat>, total: nat, size: nat, force: bool, ends: seq<nat>, start: nat, next: nat)
    requires Bounds(bs, total) && OnCourse(bs, total, size, force, ends, start, next) && start < total
    ensures next < |bs| && start < bs[next] && start == (if next == 0 then 0 else bs[next - 1])
  {
    BoundsAhead(bs, total, start, next);
  }

  lemma FurthestStart(bs: seq<nat>, size: nat)
    ensures Furthest(bs, size, [])
  {
  }

  lemma BoundsAhead(bs: seq<nat>, total: nat, start: nat, next: nat)
    requires Bounds(bs, total) && next <= |bs| && start == (if next == 0 then 0 else bs[next - 1]) && start < total
    ensures next < |bs| && start < bs[next]
    ensures forall i :: 0 <= i < |bs| ==> bs[i] <= total
  {
    assert forall i :: 0 <= i < |bs| - 1 ==> bs[i] < bs[|bs| - 1];
    assert next > 0 && next < |bs| ==> bs[next - 1] < bs[next];
  }

  lemma BoundsOrder(bs: seq<nat>, total: nat, start: nat, next: nat, after: nat)
    requires Bounds(bs, total) && next < after <= |bs| && start == (if next == 0 then 0 else bs[next - 1])
    ensures start < bs[after - 1] <= total && (bs[after - 1] == total ==> after == |bs|)
  {
    assert next > 0 ==> bs[next - 1] < bs[after - 1];
    assert after < |bs| ==> bs[after - 1] < bs[|bs| - 1];
    assert after > 1 ==> bs[0] < bs[after - 1];
  }

  lemma FewerThanAny(bs: seq<nat>, size: nat, ends: seq<nat>)
    requires |bs| > 0 && Furthest(bs, size, ends) && Rising(ends) && Start(ends, |ends|) < bs[|bs| - 1]
    ensures forall other :: IsSplit(bs, size, other) ==> |ends| < |other|
  {
    hide Furthest, IsSplit;
    forall other | IsSplit(bs, size, other)
      ensures |ends| < |other|
    {
      Shorter(bs, size, ends, other);
    }
  }

  lemma GreedyReach(bs: seq<nat>, size: nat, ends: seq<nat>, start: nat, next: nat, end: nat, after: nat)
    requires Rising(bs) && Furthest(bs, size, ends) && start == Start(ends, |ends|) && next < after <= |bs| && end == bs[after - 1]
    requires forall i :: after <= i < |bs| ==> bs[i] > start + size
    ensures Furthest(bs, size, ends + [end])
  {
    forall b | b in bs && b <= start + size
      ensures b <= end
    {
      var k :| 0 <= k < |bs| && bs[k] == b;
      assert k < after - 1 ==> bs[k] < bs[after - 1];
    }
    Reach(bs, size, ends, start, end);
  }

  lemma PlannedSplit(bs: seq<nat>, size: nat, force: bool, ends: seq<nat>, total: nat)
    requires Bounds(bs, total) && Planned(bs, size, force, ends, total, |bs|) && total > 0
    ensures ends != [] && (!force ==> IsSplit(bs, size, ends))
  {
    if !force {
      forall i | 0 <= i < |ends|
        ensures PartFits(ends, size, i)
      {
        assert PartPlanned(bs, size, force, ends, i);
      }
    }
  }

  // ---- Copying ----

  /** The bytes between consecutive cuts. */
  function PartsOf(file: Bytes, ends: seq<nat>, n: nat): (parts: seq<Bytes>)
    requires n <= |ends| && forall i :: 0 <= i < |ends| ==> Start(ends, i) <= ends[i] <= |file|
    ensures |parts| == n
  {
    seq(n, i requires 0 <= i < n => file[Start(ends, i)..ends[i]])
  }

  const READ_BUF: nat := 0x10_0000

  /** Copies each part in pieces of at most the buffer size. */
  method CopyParts(file: Bytes, ends: seq<nat>) returns (parts: seq<Bytes>)
    requires forall i :: 0 <= i < |ends| ==> Start(ends, i) <= ends[i] <= |file|
    ensures parts == PartsOf(file, ends, |ends|)
  {
    parts := [];
    var start, pos := 0, 0;
    for i := 0 to |ends|
      invariant start == pos == Start(ends, i) && parts == PartsOf(file, ends, i)
    {
      var part: Bytes := [];
      var remaining := ends[i] - start;
      while remaining > 0
        invariant 0 <= remaining && start <= pos && pos + remaining == ends[i] && part == file[start..pos]
      {
        var want := if remaining < READ_BUF then remaining else READ_BUF;
        part := part + file[pos..pos + want];
        pos := pos + want;
        remaining := remaining - want;
      }
      parts := parts + [part];
      start := ends[i];
    }
  }

  /** The parts of a plan that ends at the end of the file concatenate to the file. */
  lemma {:induction false} PartsJoin(file: Bytes, ends: seq<nat>, n: nat)
    requires n <= |ends| && forall i :: 0 <= i < |ends| ==> Start(ends, i) <= ends[i] <= |file|
    ensures Start(ends, n) <= |file| && Join(PartsOf(file, ends, n), n) == file[..Start(ends, n)]
  {
    if n > 0 {
      PartsJoin(file, ends, n - 1);
      var front := PartsOf(file, ends, n - 1);
      assert PartsOf(file, ends, n) == front + [file[Start(ends, n - 1)..ends[n - 1]]];
      JoinAppend(front, file[Start(ends, n - 1)..ends[n - 1]]);
    }
  }

  /** The two-letter suffix of part `i`. */
  function Suffix(i: nat): (s: Bytes)
    requires i < MAX_PARTS
    ensures |s| == 2
  {
    [97 + i / 26, 97 + i % 26]
  }

  /** Listing the parts by name gives them in order. */
  lemma SuffixesAscend(i: nat, j: nat)
    requires i < j < MAX_PARTS
    ensures Lt(Suffix(i), Suffix(j))
  {
    assert Suffix(i)[1..] == [97 + i % 26] && Suffix(j)[1..] == [97 + j % 26];
    assert Compare([97 + i % 26][1..], [97 + j % 26][1..]) == Equal;
  }
}
