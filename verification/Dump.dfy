/** Where a dump puts each entry, the exception directory for taken paths, and links relative to the stub's real place. */
module Dump {
  import opened Outcome
  import opened Bytes
  import opened Text
  import opened Counting

  const SLASH: byte := 47
  const PERCENT: byte := 37

  // ---- Segments ----

  /** The pieces between slashes; always at least one. */
  function Segments(p: Bytes): (s: seq<Bytes>)
    ensures |s| >= 1 && forall i :: 0 <= i < |s| ==> SLASH !in s[i]
  {
    if p == [] then [[]]
    else
      var rest := Segments(p[1..]);
      if p[0] == SLASH then [[]] + rest else [[p[0]] + rest[0]] + rest[1..]
  }

  function Glue(segs: seq<Bytes>): Bytes {
    if segs == [] then []
    else if |segs| == 1 then segs[0]
    else segs[0] + [SLASH] + Glue(segs[1..])
  }

  lemma {:induction false} GlueSegments(p: Bytes)
    ensures Glue(Segments(p)) == p
  {
    if p != [] {
      GlueSegments(p[1..]);
      var rest := Segments(p[1..]);
      if p[0] == SLASH {
        assert Segments(p)[1..] == rest;
      } else {
        assert Segments(p)[1..] == rest[1..];
        if |rest| == 1 {
          assert Glue(Segments(p)) == [p[0]] + rest[0];
        } else {
          assert Glue(Segments(p)) == [p[0]] + (rest[0] + [SLASH] + Glue(rest[1..]));
        }
      }
    }
  }

  lemma {:induction false} SegmentsAlone(seg: Bytes)
    requires SLASH !in seg
    ensures Segments(seg) == [seg]
  {
    if seg != [] {
      SegmentsAlone(seg[1..]);
      assert [seg[0]] + seg[1..] == seg && seg[0] in seg;
    }
  }

  lemma {:induction false} SegmentsCons(seg: Bytes, rest: Bytes)
    requires SLASH !in seg
    ensures Segments(seg + [SLASH] + rest) == [seg] + Segments(rest)
    decreases |seg|
  {
    var p := seg + [SLASH] + rest;
    if seg == [] {
      assert p[1..] == rest;
    } else {
      assert p[1..] == seg[1..] + [SLASH] + rest;
      SegmentsCons(seg[1..], rest);
      var tail := Segments(p[1..]);
      assert tail[0] == seg[1..] && tail[1..] == Segments(rest);
      assert [seg[0]] + seg[1..] == seg && p[0] == seg[0];
    }
  }

  lemma {:induction false} SegmentsGlue(segs: seq<Bytes>)
    requires segs != [] && forall i :: 0 <= i < |segs| ==> SLASH !in segs[i]
    ensures Segments(Glue(segs)) == segs
  {
    if |segs| == 1 {
      SegmentsAlone(segs[0]);
    } else {
      SegmentsGlue(segs[1..]);
      SegmentsCons(segs[0], Glue(segs[1..]));
    }
  }

  // ---- Sanitising ----

  const DOT: Bytes := [46]
  const DOT_DOT: Bytes := [46, 46]

  predicate Proper(seg: Bytes) {
    seg != [] && seg != DOT && seg != DOT_DOT
  }

  function KeepProper(segs: seq<Bytes>): (r: seq<Bytes>)
    ensures forall i :: 0 <= i < |r| ==> Proper(r[i]) && r[i] in segs
  {
    if segs == [] then []
    else if Proper(segs[0]) then [segs[0]] + KeepProper(segs[1..])
    else KeepProper(segs[1..])
  }

  function SafePath(p: Bytes): Bytes {
    var out := KeepProper(Segments(p));
    if out == [] then [95] else Glue(out)
  }

  predicate Increasing(at: seq<nat>) {
    forall i, j :: 0 <= i < j < |at| ==> at[i] < at[j]
  }

  ghost predicate Reads(segs: seq<Bytes>, kept: seq<Bytes>, at: seq<nat>) {
    |at| == |kept| && forall j :: 0 <= j < |at| ==> at[j] < |segs| && kept[j] == segs[at[j]]
  }

  ghost predicate AllProper(segs: seq<Bytes>, at: seq<nat>) {
    forall i: nat :: i < |segs| ==> (Proper(segs[i]) <==> i in at)
  }

  /** `kept` are the proper segments of `segs`, in order. */
  ghost predicate Picks(segs: seq<Bytes>, kept: seq<Bytes>, at: seq<nat>) {
    Increasing(at) && Reads(segs, kept, at) && AllProper(segs, at)
  }

  /** The same positions, one further. */
  function Later(at: seq<nat>): (later: seq<nat>)
    ensures |later| == |at|
  {
    seq(|at|, j requires 0 <= j < |at| => at[j] + 1)
  }

  lemma LaterHas(at: seq<nat>, i: nat)
    ensures i in Later(at) <==> i > 0 && i - 1 in at
    ensures i in [0] + Later(at) <==> i == 0 || i - 1 in at
  {
    if i > 0 && i - 1 in at {
      var j :| 0 <= j < |at| && at[j] == i - 1;
      assert Later(at)[j] == i;
    }
  }

  lemma LaterAllProper(segs: seq<Bytes>, rest: seq<nat>)
    requires segs != [] && AllProper(segs[1..], rest)
    ensures AllProper(segs, if Proper(segs[0]) then [0] + Later(rest) else Later(rest))
  {
    hide Proper, Later;
    forall i: nat | i < |segs|
      ensures Proper(segs[i]) <==> i in if Proper(segs[0]) then [0] + Later(rest) else Later(rest)
    {
      LaterHas(rest, i);
      if i > 0 {
        assert segs[1..][i - 1] == segs[i];
      }
    }
  }

  lemma LaterReads(segs: seq<Bytes>, kept: seq<Bytes>, rest: seq<nat>)
    requires segs != [] && Reads(segs[1..], kept, rest)
    ensures Reads(segs, kept, Later(rest)) && Reads(segs, [segs[0]] + kept, [0] + Later(rest))
  {
    forall j | 0 <= j < |rest|
      ensures rest[j] + 1 < |segs| && segs[rest[j] + 1] == kept[j]
    {
      assert segs[1..][rest[j]] == segs[rest[j] + 1];
    }
    forall j | 0 <= j < |[0] + Later(rest)|
      ensures ([0] + Later(rest))[j] < |segs| && ([segs[0]] + kept)[j] == segs[([0] + Later(rest))[j]]
    {
      assert j > 0 ==> ([0] + Later(rest))[j] == rest[j - 1] + 1;
    }
  }

  lemma LaterIncreasing(rest: seq<nat>)
    requires Increasing(rest)
    ensures Increasing(Later(rest)) && Increasing([0] + Later(rest))
  {
    var front := [0] + Later(rest);
    assert forall j :: 0 < j < |front| ==> front[j] == rest[j - 1] + 1;
  }

  lemma {:induction false} KeepsInOrder(segs: seq<Bytes>) returns (at: seq<nat>)
    ensures Picks(segs, KeepProper(segs), at)
  {
    hide Proper, AllProper, Reads, Increasing, Later;
    if segs == [] {
      at := [];
      NothingPicked();
    } else {
      var rest := KeepsInOrder(segs[1..]);
      at := if Proper(segs[0]) then [0] + Later(rest) else Later(rest);
      LaterAllProper(segs, rest);
      LaterReads(segs, KeepProper(segs[1..]), rest);
      LaterIncreasing(rest);
    }
  }

  lemma NothingPicked()
    ensures Picks([], [], [])
  {
  }

  /** A sanitised path consists of all the proper segments of the path, in order; without any it is a single underscore. */
  lemma SafePathKeeps(p: Bytes) returns (kept: seq<Bytes>, at: seq<nat>)
    ensures Picks(Segments(p), kept, at)
    ensures Segments(SafePath(p)) == if kept == [] then [[95]] else kept
  {
    kept := KeepProper(Segments(p));
    at := KeepsInOrder(Segments(p));
    if kept == [] {
      SegmentsAlone([95]);
    } else {
      SegmentsGlue(kept);
    }
  }

  /** Every segment is a plain name. */
  ghost predicate Sane(rel: Bytes) {
    forall i :: 0 <= i < |Segments(rel)| ==> Proper(Segments(rel)[i])
  }

  lemma {:induction false} KeepAll(segs: seq<Bytes>)
    requires forall i :: 0 <= i < |segs| ==> Proper(segs[i])
    ensures KeepProper(segs) == segs
  {
    if segs != [] {
      KeepAll(segs[1..]);
    }
  }

  /** A sanitised path has only plain names, and paths that have only plain names stay as they are. */
  lemma SafePathExact(p: Bytes)
    ensures Sane(SafePath(p))
    ensures Sane(p) ==> SafePath(p) == p
  {
    var out := KeepProper(Segments(p));
    if out == [] {
      SegmentsAlone([95]);
    } else {
      SegmentsGlue(out);
    }
    if Sane(p) {
      KeepAll(Segments(p));
      GlueSegments(p);
    }
  }

  // ---- The exception directory ----

  const EXCEPTIONS: Bytes := Ascii("_exceptions")

  function EscapeByte(b: byte): Bytes {
    if b == PERCENT then [37, 50, 53] else if b == SLASH then [37, 50, 102] else [b]
  }

  function Escape(rel: Bytes): Bytes {
    if rel == [] then [] else EscapeByte(rel[0]) + Escape(rel[1..])
  }

  function EscapedName(rel: Bytes): Bytes {
    var esc := Escape(rel);
    if esc == [] || esc == DOT || esc == DOT_DOT then [95] + esc else esc
  }

  function ExceptionDest(rel: Bytes): Bytes {
    EXCEPTIONS + [SLASH] + EscapedName(rel)
  }

  method BuildEscape(rel: Bytes) returns (esc: Bytes)
    ensures esc == EscapedName(rel)
  {
    esc := [];
    hide EscapeByte;
    assert rel[0..] == rel;
    for i := 0 to |rel|
      invariant esc + Escape(rel[i..]) == Escape(rel)
    {
      assert rel[i..][1..] == rel[i + 1..];
      assert esc + (EscapeByte(rel[i]) + Escape(rel[i + 1..])) == esc + EscapeByte(rel[i]) + Escape(rel[i + 1..]);
      esc := esc + EscapeByte(rel[i]);
    }
    assert rel[|rel|..] == [] && esc + [] == esc;
    if esc == [] || esc == DOT || esc == DOT_DOT {
      esc := [95] + esc;
    }
  }

  lemma {:induction false} EscapeFlat(rel: Bytes)
    ensures SLASH !in Escape(rel) && (rel != [] ==> Escape(rel) != [])
  {
    if rel != [] {
      EscapeFlat(rel[1..]);
    }
  }

  /** Different paths have different escaped forms. */
  lemma {:induction false} EscapeInjective(a: Bytes, b: Bytes)
    requires Escape(a) == Escape(b)
    ensures a == b
    decreases |a|
  {
    if a == [] {
      EscapeFlat(b);
    } else if b == [] {
      EscapeFlat(a);
    } else {
      var ea, eb := Escape(a), Escape(b);
      assert ea[0] == eb[0];
      if a[0] == PERCENT || a[0] == SLASH {
        assert ea[2] == eb[2];
        assert ea[3..] == Escape(a[1..]) && eb[3..] == Escape(b[1..]);
      } else {
        assert ea[1..] == Escape(a[1..]) && eb[1..] == Escape(b[1..]);
      }
      EscapeInjective(a[1..], b[1..]);
      assert a == [a[0]] + a[1..] && b == [b[0]] + b[1..];
    }
  }

  /** The value of a hexadecimal digit. */
  function HexValue(b: byte): Option<byte> {
    if 48 <= b <= 57 then Some(b - 48) else if 65 <= b <= 70 then Some(b - 55) else if 97 <= b <= 102 then Some(b - 87) else None
  }

  /** Percent-decoding: `%` and two digits stand for the byte they number. */
  function Unescape(s: Bytes): Bytes
    decreases |s|
  {
    if s == [] then []
    else if s[0] == PERCENT && |s| >= 3 && HexValue(s[1]).Some? && HexValue(s[1]).value < 16 && HexValue(s[2]).Some?
            && HexValue(s[2]).value < 16 then
      [16 * HexValue(s[1]).value + HexValue(s[2]).value] + Unescape(s[3..])
    else [s[0]] + Unescape(s[1..])
  }

  /** Percent-decoding an escaped path gives the path. */
  lemma {:induction false} UnescapeExact(rel: Bytes)
    ensures Unescape(Escape(rel)) == rel
  {
    if rel != [] {
      var esc := Escape(rel);
      UnescapeExact(rel[1..]);
      if rel[0] == PERCENT || rel[0] == SLASH {
        assert esc[3..] == Escape(rel[1..]) && HexValue(esc[1]) == Some(2);
      } else {
        assert esc[1..] == Escape(rel[1..]);
      }
      assert rel == [rel[0]] + rel[1..];
    }
  }

  /** Among sanitised paths the escaped name is the escape itself, one plain name. */
  lemma SaneEscape(rel: Bytes)
    requires Sane(rel)
    ensures EscapedName(rel) == Escape(rel) && Proper(EscapedName(rel)) && SLASH !in EscapedName(rel)
  {
    EscapeFlat(rel);
    EscapeDots();
    SegmentsAlone([]);
    SegmentsAlone(DOT);
    SegmentsAlone(DOT_DOT);
    assert Proper(Segments(rel)[0]);
    if Escape(rel) == DOT {
      EscapeInjective(rel, DOT);
    }
    if Escape(rel) == DOT_DOT {
      EscapeInjective(rel, DOT_DOT);
    }
  }

  lemma EscapeDots()
    ensures Escape(DOT) == DOT && Escape(DOT_DOT) == DOT_DOT
  {
    assert DOT[1..] == [] && Escape([]) == [];
    assert DOT_DOT[1..] == DOT;
  }

  // ---- Placement ----

  /** `a` is a directory on the way to `b`. */
  predicate Above(a: Bytes, b: Bytes) {
    |a| < |b| && b[..|a|] == a && b[|a|] == SLASH
  }

  /** Some dumped path is a directory prefix of `rel`. */
  ghost predicate Exiled(all: set<Bytes>, rel: Bytes) {
    exists p :: p in all && Above(p, rel)
  }

  method IsExiled(all: set<Bytes>, rel: Bytes) returns (b: bool)
    ensures b <==> Exiled(all, rel)
  {
    var idx := 0;
    while idx < |rel|
      invariant 0 <= idx <= |rel|
      invariant forall p :: p in all && |p| < idx ==> !Above(p, rel)
    {
      if rel[idx] == SLASH && rel[..idx] in all {
        assert Above(rel[..idx], rel);
        return true;
      }
      idx := idx + 1;
    }
    return false;
  }

  ghost function Dest(all: set<Bytes>, rel: Bytes): Bytes {
    if Exiled(all, rel) then ExceptionDest(rel) else rel
  }

  /** No dumped path is the exception directory or lies in it. */
  ghost predicate ClearOfExceptions(all: set<Bytes>) {
    forall p :: p in all ==> Sane(p) && p != EXCEPTIONS && !Above(EXCEPTIONS, p)
  }

  lemma ExceptionPath(rel: Bytes)
    requires Sane(rel)
    ensures Above(EXCEPTIONS, ExceptionDest(rel))
    ensures forall d :: Above(d, ExceptionDest(rel)) ==> d == EXCEPTIONS
    ensures forall d :: !Above(ExceptionDest(rel), d) || Above(EXCEPTIONS, d)
  {
    SaneEscape(rel);
    var dest := ExceptionDest(rel);
    assert dest[..|EXCEPTIONS|] == EXCEPTIONS;
    assert forall i :: |EXCEPTIONS| < i < |dest| ==> dest[i] in EscapedName(rel);
    forall i | 0 <= i < |dest| && dest[i] == SLASH
      ensures i == |EXCEPTIONS|
    {
      if i < |EXCEPTIONS| {
        NoSlash(i);
      }
    }
    forall d | Above(d, dest)
      ensures d == EXCEPTIONS
    {
      assert |d| == |EXCEPTIONS|;
    }
    forall d | Above(dest, d)
      ensures Above(EXCEPTIONS, d)
    {
      assert d[..|EXCEPTIONS|] == d[..|dest|][..|EXCEPTIONS|];
      assert d[|EXCEPTIONS|] == d[..|dest|][|EXCEPTIONS|];
    }
  }

  lemma NoSlash(i: nat)
    requires i < |EXCEPTIONS|
    ensures EXCEPTIONS[i] != SLASH
  {
  }

  /** Entries get distinct destinations, and no destination is a directory on the way to another. */
  lemma PlacesApart(all: set<Bytes>, a: Bytes, b: Bytes)
    requires ClearOfExceptions(all) && a in all && b in all && a != b
    ensures Dest(all, a) != Dest(all, b) && !Above(Dest(all, a), Dest(all, b))
  {
    if Exiled(all, a) {
      ExceptionPath(a);
    }
    if Exiled(all, b) {
      ExceptionPath(b);
    }
    if Exiled(all, a) && Exiled(all, b) {
      SaneEscape(a);
      SaneEscape(b);
      if ExceptionDest(a) == ExceptionDest(b) {
        assert ExceptionDest(a)[|EXCEPTIONS| + 1..] == EscapedName(a);
        assert ExceptionDest(b)[|EXCEPTIONS| + 1..] == EscapedName(b);
        EscapeInjective(a, b);
      }
    }
  }

  // ---- Links ----

  /** The link text written at `dest` for the root-relative `target`. */
  function RelativeTarget(dest: Bytes, target: Bytes): Bytes {
    var depth := |Segments(dest)| - 1;
    (if depth == 0 then [46, 47] else Ups(depth)) + target
  }

  function Ups(n: nat): Bytes {
    if n == 0 then [] else [46, 46, 47] + Ups(n - 1)
  }

  /** Resolves link segments from a directory: `.` stays, `..` climbs, a name descends. */
  function Resolve(dir: seq<Bytes>, link: seq<Bytes>): Option<seq<Bytes>>
    decreases |link|
  {
    if link == [] then Some(dir)
    else if link[0] == DOT then Resolve(dir, link[1..])
    else if link[0] == DOT_DOT then (if dir == [] then None else Resolve(dir[..|dir| - 1], link[1..]))
    else Resolve(dir + [link[0]], link[1..])
  }

  lemma {:induction false} ResolveNames(dir: seq<Bytes>, names: seq<Bytes>)
    requires forall i :: 0 <= i < |names| ==> Proper(names[i])
    ensures Resolve(dir, names) == Some(dir + names)
    decreases |names|
  {
    if names == [] {
      assert dir + names == dir;
    } else {
      ResolveNames(dir + [names[0]], names[1..]);
      assert dir + [names[0]] + names[1..] == dir + names;
    }
  }

  lemma {:induction false} ResolveUps(dir: seq<Bytes>, target: Bytes)
    requires Sane(target)
    ensures Resolve(dir, Segments(Ups(|dir|) + target)) == Some(Segments(target))
    decreases |dir|
  {
    if dir == [] {
      assert Ups(0) + target == target;
      ResolveNames([], Segments(target));
      assert [] + Segments(target) == Segments(target);
    } else {
      var rest := Ups(|dir| - 1) + target;
      assert Ups(|dir|) + target == DOT_DOT + [SLASH] + rest;
      SegmentsCons(DOT_DOT, rest);
      ResolveUps(dir[..|dir| - 1], target);
      assert ([DOT_DOT] + Segments(rest))[1..] == Segments(rest);
    }
  }

  /** Followed from the directory of `dest`, the link leads to `target`. */
  lemma LinkResolves(dest: Bytes, target: Bytes)
    requires Sane(target)
    ensures var dir := Segments(dest)[..|Segments(dest)| - 1];
      Resolve(dir, Segments(RelativeTarget(dest, target))) == Some(Segments(target))
  {
    var dir := Segments(dest)[..|Segments(dest)| - 1];
    if dir == [] {
      assert RelativeTarget(dest, target) == DOT + [SLASH] + target;
      SegmentsCons(DOT, target);
      ResolveNames([], Segments(target));
      assert ([DOT] + Segments(target))[1..] == Segments(target) && [] + Segments(target) == Segments(target);
    } else {
      ResolveUps(dir, target);
    }
  }

  lemma DestSane(all: set<Bytes>, rel: Bytes)
    requires ClearOfExceptions(all) && rel in all
    ensures Sane(Dest(all, rel))
  {
    if Exiled(all, rel) {
      SaneEscape(rel);
      SegmentsAlone(EscapedName(rel));
      assert SLASH !in EXCEPTIONS by {
        forall i | 0 <= i < |EXCEPTIONS|
          ensures EXCEPTIONS[i] != SLASH
        {
          NoSlash(i);
        }
      }
      SegmentsCons(EXCEPTIONS, EscapedName(rel));
    }
  }

  // ---- The plan ----

  /** An entry with its place; a redirect also has the text of its link. */
  datatype Placed = Placed(rel: Bytes, dest: Bytes)
  datatype Stub = Stub(rel: Bytes, dest: Bytes, target: Bytes, link: Bytes)

  function PathsOf(articles: seq<Bytes>, redirects: seq<(Bytes, Bytes)>): seq<Bytes> {
    articles + seq(|redirects|, i requires 0 <= i < |redirects| => redirects[i].0)
  }

  function SetOf(paths: seq<Bytes>): (s: set<Bytes>)
    ensures forall p :: p in s <==> p in paths
  {
    set p | p in paths
  }

  /** Where the target of a redirect really lies: its destination when it is dumped. */
  ghost function TargetPlace(all: set<Bytes>, target: Bytes): Bytes {
    if target in all then Dest(all, target) else target
  }

  ghost predicate Relocations(all: set<Bytes>, fallback: map<Bytes, Bytes>, recorded: seq<Bytes>) {
    && (forall p :: p in fallback ==> p in all && Exiled(all, p) && fallback[p] == ExceptionDest(p))
    && (forall p :: p in recorded && Exiled(all, p) ==> p in fallback)
  }

  method RecordRedirects(all: set<Bytes>, redirects: seq<(Bytes, Bytes)>, ghost links: seq<Bytes>) returns (fallback: map<Bytes, Bytes>)
    requires |links| == |redirects| && forall i :: 0 <= i < |redirects| ==> links[i] == redirects[i].0 && links[i] in all
    ensures Relocations(all, fallback, links)
  {
    hide Exiled, ExceptionDest;
    fallback := map[];
    for i := 0 to |redirects|
      invariant Relocations(all, fallback, links[..i])
    {
      var exiled := IsExiled(all, redirects[i].0);
      if exiled {
        fallback := fallback[redirects[i].0 := ExceptionDest(redirects[i].0)];
      }
      assert links[..i + 1] == links[..i] + [links[i]];
    }
    assert links[..|redirects|] == links;
  }

  method PlaceArticles(all: set<Bytes>, articles: seq<Bytes>, before: map<Bytes, Bytes>, ghost links: seq<Bytes>)
    returns (files: seq<Placed>, fallback: map<Bytes, Bytes>)
    requires Relocations(all, before, links) && forall i :: 0 <= i < |articles| ==> articles[i] in all
    ensures |files| == |articles| && forall j :: 0 <= j < |articles| ==> files[j] == Placed(articles[j], Dest(all, articles[j]))
    ensures Relocations(all, fallback, links + articles)
  {
    hide Exiled, ExceptionDest;
    files := [];
    fallback := before;
    assert links + articles[..0] == links;
    for i := 0 to |articles|
      invariant |files| == i && forall j :: 0 <= j < i ==> files[j] == Placed(articles[j], Dest(all, articles[j]))
      invariant Relocations(all, fallback, links + articles[..i])
    {
      var exiled := IsExiled(all, articles[i]);
      if exiled {
        fallback := fallback[articles[i] := ExceptionDest(articles[i])];
        files := files + [Placed(articles[i], ExceptionDest(articles[i]))];
      } else {
        files := files + [Placed(articles[i], articles[i])];
      }
      assert articles[..i + 1] == articles[..i] + [articles[i]];
    }
    assert articles[..|articles|] == articles;
  }

  ghost function StubFor(all: set<Bytes>, redirect: (Bytes, Bytes)): Stub {
    var dest := Dest(all, redirect.0);
    Stub(redirect.0, dest, redirect.1, RelativeTarget(dest, TargetPlace(all, redirect.1)))
  }

  method WriteStubs(all: set<Bytes>, fallback: map<Bytes, Bytes>, redirects: seq<(Bytes, Bytes)>, ghost recorded: seq<Bytes>)
    returns (stubs: seq<Stub>)
    requires Relocations(all, fallback, recorded) && forall p :: p in all ==> p in recorded
    ensures |stubs| == |redirects| && forall i :: 0 <= i < |redirects| ==> stubs[i] == StubFor(all, redirects[i])
  {
    hide Exiled, ExceptionDest, RelativeTarget;
    stubs := [];
    for i := 0 to |redirects|
      invariant |stubs| == i && forall j :: 0 <= j < i ==> stubs[j] == StubFor(all, redirects[j])
    {
      var (rel, target) := redirects[i];
      var exiled := IsExiled(all, rel);
      var dest := if exiled then ExceptionDest(rel) else rel;
      var place := if target in fallback then fallback[target] else target;
      assert place == TargetPlace(all, target);
      stubs := stubs + [Stub(rel, dest, target, RelativeTarget(dest, place))];
    }
  }

  /** Decides every place up front, records the relocated entries, and writes each link for where its stub and its
      target really are. */
  method Plan(articles: seq<Bytes>, redirects: seq<(Bytes, Bytes)>) returns (files: seq<Placed>, stubs: seq<Stub>)
    ensures |files| == |articles| && |stubs| == |redirects|
    ensures var all := SetOf(PathsOf(articles, redirects));
      && (forall i :: 0 <= i < |articles| ==> files[i] == Placed(articles[i], Dest(all, articles[i])))
      && (forall i :: 0 <= i < |redirects| ==> stubs[i] == StubFor(all, redirects[i]))
  {
    var all := SetOf(PathsOf(articles, redirects));
    ghost var links: seq<Bytes> := seq(|redirects|, j requires 0 <= j < |redirects| => redirects[j].0);
    AllRecorded(articles, redirects);
    hide *;
    var fallback := RecordRedirects(all, redirects, links);
    files, fallback := PlaceArticles(all, articles, fallback, links);
    stubs := WriteStubs(all, fallback, redirects, links + articles);
  }

  lemma AllRecorded(articles: seq<Bytes>, redirects: seq<(Bytes, Bytes)>)
    ensures var links: seq<Bytes> := seq(|redirects|, j requires 0 <= j < |redirects| => redirects[j].0);
      var all := SetOf(PathsOf(articles, redirects));
      && (forall p :: p in all ==> p in links + articles)
      && (forall i :: 0 <= i < |redirects| ==> links[i] in all)
      && (forall i :: 0 <= i < |articles| ==> articles[i] in all)
  {
    var links: seq<Bytes> := seq(|redirects|, j requires 0 <= j < |redirects| => redirects[j].0);
    assert PathsOf(articles, redirects) == articles + links;
  }

  /** Every stub whose target is dumped leads, from where it lies, to where its target lies. */
  lemma StubsLead(all: set<Bytes>, redirect: (Bytes, Bytes))
    requires ClearOfExceptions(all) && redirect.1 in all
    ensures var stub := StubFor(all, redirect);
      var dir := Segments(stub.dest)[..|Segments(stub.dest)| - 1];
      Resolve(dir, Segments(stub.link)) == Some(Segments(Dest(all, redirect.1)))
  {
    DestSane(all, redirect.1);
    LinkResolves(Dest(all, redirect.0), Dest(all, redirect.1));
  }
}
