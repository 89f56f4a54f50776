/** Turning symbolic links into redirects: path normalisation inside the root, and the memoised chain walk. */
module Symlinks {
  import opened Outcome
  import opened Bytes
  import opened Counting

  // ---- Normalisation ----

  datatype Component = Normal(name: Bytes) | ParentDir | CurDir | Other

  /** Names on the stack after the first `n` components, None once a `..` leaves the root or a component is absolute. */
  function Stack(path: seq<Component>, n: nat): Option<seq<Bytes>>
    requires n <= |path|
  {
    if n == 0 then Some([])
    else
      match Stack(path, n - 1)
      case None => None
      case Some(stack) =>
        match path[n - 1]
        case Normal(x) => Some(stack + [x])
        case ParentDir => if stack == [] then None else Some(stack[..|stack| - 1])
        case CurDir => Some(stack)
        case Other => None
  }

  /** `p` relative to `root`, without dots; None when it escapes the root or names it. */
  method NormalizeWithin(root: seq<Component>, p: seq<Component>) returns (r: Option<seq<Bytes>>)
    ensures r == Normalized(root, p)
  {
    if !(root <= p) {
      return None;
    }
    var rel := p[|root|..];
    var stack: seq<Bytes> := [];
    for i := 0 to |rel|
      invariant Stack(rel, i) == Some(stack)
    {
      match rel[i] {
        case Normal(x) => stack := stack + [x];
        case ParentDir =>
          if stack == [] {
            StaysNone(rel, i + 1, |rel|);
            return None;
          }
          stack := stack[..|stack| - 1];
        case CurDir =>
        case Other =>
          StaysNone(rel, i + 1, |rel|);
          return None;
      }
    }
    return if stack == [] then None else Some(stack);
  }

  function Normalized(root: seq<Component>, p: seq<Component>): Option<seq<Bytes>> {
    if !(root <= p) then None
    else
      match Stack(p[|root|..], |p| - |root|)
      case None => None
      case Some(stack) => if stack == [] then None else Some(stack)
  }

  lemma {:induction false} StaysNone(path: seq<Component>, i: nat, n: nat)
    requires i <= n <= |path| && Stack(path, i) == None
    ensures Stack(path, n) == None
    decreases n
  {
    if i < n {
      StaysNone(path, i, n - 1);
    }
  }

  /** Names entered minus names left in the first `n` components. */
  function Depth(path: seq<Component>, n: nat): int
    requires n <= |path|
  {
    if n == 0 then 0
    else Depth(path, n - 1) + (match path[n - 1] case Normal(_) => 1 case ParentDir => -1 case CurDir => 0 case Other => 0)
  }

  /** No prefix of the first `n` components climbs above the root or holds a rooted component. */
  ghost predicate StaysInside(path: seq<Component>, n: nat)
    requires n <= |path|
  {
    forall i :: 0 <= i <= n ==> Depth(path, i) >= 0 && (i > 0 ==> path[i - 1] != Other)
  }

  /** A path stays inside exactly when no prefix of it climbs above the root, and then its depth counts its names. */
  lemma {:induction false} StackExact(path: seq<Component>, n: nat)
    requires n <= |path|
    ensures Stack(path, n).Some? <==> StaysInside(path, n)
    ensures Stack(path, n).Some? ==> |Stack(path, n).value| == Depth(path, n)
  {
    if n > 0 {
      StackExact(path, n - 1);
      assert StaysInside(path, n) <==> StaysInside(path, n - 1) && Depth(path, n) >= 0 && path[n - 1] != Other;
      hide StaysInside;
    }
  }

  /** What follows works on the stack that is there. */
  lemma {:induction false} StackFollows(a: seq<Component>, a': seq<Component>, b: seq<Component>, n: nat)
    requires Stack(a, |a|) == Stack(a', |a'|) && n <= |b|
    ensures Stack(a + b, |a| + n) == Stack(a' + b, |a'| + n)
  {
    if n == 0 {
      StackFront(a, b, |a|);
      StackFront(a', b, |a'|);
    } else {
      StackFollows(a, a', b, n - 1);
      assert (a + b)[|a| + n - 1] == (a' + b)[|a'| + n - 1] == b[n - 1];
    }
  }

  lemma {:induction false} StackFront(a: seq<Component>, b: seq<Component>, n: nat)
    requires n <= |a|
    ensures Stack(a + b, n) == Stack(a, n)
  {
    if n > 0 {
      StackFront(a, b, n - 1);
      assert (a + b)[n - 1] == a[n - 1];
    }
  }

  lemma StackAppend(a: seq<Component>, c: Component)
    requires Stack(a, |a|).Some?
    ensures var names := Stack(a, |a|).value;
      Stack(a + [c], |a + [c]|) ==
      match c
      case Normal(x) => Some(names + [x])
      case ParentDir => if names == [] then None else Some(names[..|names| - 1])
      case CurDir => Some(names)
      case Other => None
  {
    StackFront(a, [c], |a|);
  }

  /** `x/..` and `.` can be left out anywhere, as far as the path has not left the root before. With the next lemma this
      fixes every name of the result. */
  lemma Cancels(a: seq<Component>, x: Bytes, b: seq<Component>)
    requires Stack(a, |a|).Some?
    ensures var p := a + [Normal(x), ParentDir] + b; Stack(p, |p|) == Stack(a + b, |a + b|)
    ensures var p := a + [CurDir] + b; Stack(p, |p|) == Stack(a + b, |a + b|)
  {
    hide Stack;
    StackAppend(a, Normal(x));
    StackAppend(a + [Normal(x)], ParentDir);
    StackAppend(a, CurDir);
    var names := Stack(a, |a|).value;
    assert (names + [x])[..|names|] == names;
    assert a + [Normal(x)] + [ParentDir] == a + [Normal(x), ParentDir];
    StackFollows(a + [Normal(x), ParentDir], a, b, |b|);
    StackFollows(a + [CurDir], a, b, |b|);
  }

  /** A normalised path is a fixed point: normalising it again gives the same names. */
  lemma {:induction false} NormalizedFixed(names: seq<Bytes>, n: nat)
    requires n <= |names|
    ensures Stack(seq(|names|, i requires 0 <= i < |names| => Normal(names[i])), n) == Some(names[..n])
  {
    if n > 0 {
      NormalizedFixed(names, n - 1);
      assert names[..n] == names[..n - 1] + [names[n - 1]];
    }
  }

  // ---- Chains of links ----

  /** Where each link points, None when its target cannot be read or leaves the root. */
  type Links = map<Bytes, Option<Bytes>>

  /** One step of the walk; it stops at an ingested file and at a dead end. */
  function Step(graph: Links, files: set<Bytes>, x: Bytes): Option<Bytes> {
    if x in files || x !in graph then None else graph[x]
  }

  ghost function Walk(graph: Links, files: set<Bytes>, x: Bytes, n: nat): Option<Bytes> {
    if n == 0 then Some(x)
    else
      match Walk(graph, files, x, n - 1)
      case None => None
      case Some(y) => Step(graph, files, y)
  }

  /** The uncached chain from `x` ends at the ingested file `t`. */
  ghost predicate EndsAt(graph: Links, files: set<Bytes>, x: Bytes, t: Bytes) {
    t in files && exists n: nat :: Walk(graph, files, x, n) == Some(t)
  }

  ghost predicate Dead(graph: Links, files: set<Bytes>, x: Bytes) {
    forall t :: !EndsAt(graph, files, x, t)
  }

  lemma {:induction false} WalkFront(graph: Links, files: set<Bytes>, x: Bytes, n: nat)
    requires Step(graph, files, x).Some?
    ensures Walk(graph, files, x, n + 1) == Walk(graph, files, Step(graph, files, x).value, n)
  {
    if n == 0 {
      assert Walk(graph, files, x, 0) == Some(x);
      assert Walk(graph, files, x, 1) == Step(graph, files, x);
    } else {
      WalkFront(graph, files, x, n - 1);
    }
  }

  lemma {:induction false} WalkStuck(graph: Links, files: set<Bytes>, x: Bytes, n: nat)
    requires Step(graph, files, x) == None && n > 0
    ensures Walk(graph, files, x, n) == None
  {
    if n == 1 {
      assert Walk(graph, files, x, 0) == Some(x);
    } else {
      WalkStuck(graph, files, x, n - 1);
    }
  }

  /** A step changes neither the end of the chain nor whether there is one. */
  lemma EndsStep(graph: Links, files: set<Bytes>, x: Bytes, t: Bytes)
    requires Step(graph, files, x).Some?
    ensures EndsAt(graph, files, x, t) <==> EndsAt(graph, files, Step(graph, files, x).value, t)
  {
    var y := Step(graph, files, x).value;
    if EndsAt(graph, files, y, t) {
      var n: nat :| Walk(graph, files, y, n) == Some(t);
      WalkFront(graph, files, x, n);
    }
    assert Walk(graph, files, x, 0) == Some(x);
    if EndsAt(graph, files, x, t) {
      var n: nat :| Walk(graph, files, x, n) == Some(t);
      if n > 0 {
        WalkFront(graph, files, x, n - 1);
      }
    }
  }

  lemma EndsHere(graph: Links, files: set<Bytes>, x: Bytes)
    ensures x in files ==> EndsAt(graph, files, x, x)
    ensures x in files ==> forall t :: EndsAt(graph, files, x, t) ==> t == x
    ensures x !in files && Step(graph, files, x) == None ==> Dead(graph, files, x)
  {
    assert Walk(graph, files, x, 0) == Some(x);
    forall t | EndsAt(graph, files, x, t) && (x in files || Step(graph, files, x) == None)
      ensures t == x
    {
      var n: nat :| Walk(graph, files, x, n) == Some(t);
      if n > 0 {
        WalkStuck(graph, files, x, n);
      }
    }
  }

  /** The answer for `x`: the file its chain ends at, or None when there is none. */
  ghost predicate Answers(graph: Links, files: set<Bytes>, x: Bytes, r: Option<Bytes>) {
    match r
    case Some(t) => EndsAt(graph, files, x, t) && forall u :: EndsAt(graph, files, x, u) ==> u == t
    case None => Dead(graph, files, x)
  }

  lemma AnswersStep(graph: Links, files: set<Bytes>, x: Bytes, r: Option<Bytes>)
    requires Step(graph, files, x).Some? && Answers(graph, files, Step(graph, files, x).value, r)
    ensures Answers(graph, files, x, r)
  {
    forall t
      ensures EndsAt(graph, files, x, t) <==> EndsAt(graph, files, Step(graph, files, x).value, t)
    {
      EndsStep(graph, files, x, t);
    }
  }

  /** `trail` follows the links from its first element to `current`. */
  ghost predicate Trail(graph: Links, files: set<Bytes>, trail: seq<Bytes>, current: Bytes) {
    forall i :: 0 <= i < |trail| ==> Hop(graph, files, trail, current, i)
  }

  ghost predicate Hop(graph: Links, files: set<Bytes>, trail: seq<Bytes>, current: Bytes, i: nat)
    requires i < |trail|
  {
    Step(graph, files, trail[i]) == Some(if i + 1 < |trail| then trail[i + 1] else current)
  }

  lemma {:induction false} TrailAnswers(graph: Links, files: set<Bytes>, trail: seq<Bytes>, current: Bytes, r: Option<Bytes>, i: nat)
    requires Trail(graph, files, trail, current) && Answers(graph, files, current, r) && i <= |trail|
    ensures forall j :: i <= j < |trail| ==> Answers(graph, files, trail[j], r)
    decreases |trail| - i
  {
    hide Answers;
    if i < |trail| {
      TrailAnswers(graph, files, trail, current, r, i + 1);
      assert Hop(graph, files, trail, current, i);
      AnswersStep(graph, files, trail[i], r);
    }
  }

  lemma {:induction false} CycleNeverEnds(graph: Links, files: set<Bytes>, trail: seq<Bytes>, current: Bytes, t: Bytes, n: nat, i: nat)
    requires Trail(graph, files, trail, current) && trail != [] && current == trail[0] && i < |trail|
    requires Walk(graph, files, trail[i], n) == Some(t) && t in files
    ensures false
    decreases n
  {
    assert Hop(graph, files, trail, current, i);
    if n > 0 {
      WalkFront(graph, files, trail[i], n - 1);
      CycleNeverEnds(graph, files, trail, current, t, n - 1, if i + 1 < |trail| then i + 1 else 0);
    }
  }

  /** A chain that comes back to itself ends nowhere. */
  lemma CycleDead(graph: Links, files: set<Bytes>, trail: seq<Bytes>, current: Bytes)
    requires Trail(graph, files, trail, current) && current in trail
    ensures Dead(graph, files, current)
  {
    var k :| 0 <= k < |trail| && trail[k] == current;
    var ring := trail[k..];
    forall i | 0 <= i < |ring|
      ensures Hop(graph, files, ring, current, i)
    {
      assert Hop(graph, files, trail, current, k + i);
    }
    forall t
      ensures !EndsAt(graph, files, current, t)
    {
      if EndsAt(graph, files, current, t) {
        var n: nat :| Walk(graph, files, current, n) == Some(t);
        CycleNeverEnds(graph, files, ring, current, t, n, 0);
      }
    }
  }

  ghost predicate Memo(graph: Links, files: set<Bytes>, resolved: map<Bytes, Option<Bytes>>) {
    forall x :: x in resolved ==> Answers(graph, files, x, resolved[x])
  }

  /** The chain followed so far: from `rel` to `current`, one round for each of its nodes, none of them walked before. */
  ghost predicate Following(graph: Links, files: set<Bytes>, known: set<Bytes>, rel: Bytes, trail: seq<Bytes>, chain: set<Bytes>,
                            current: Bytes, rounds: nat) {
    && Trail(graph, files, trail, current) && (if trail == [] then current == rel else trail[0] == rel)
    && (forall x :: x in chain <==> x in trail) && Walking(known, graph.Keys, chain, rounds)
  }

  lemma FollowStart(graph: Links, files: set<Bytes>, known: set<Bytes>, rel: Bytes)
    ensures Following(graph, files, known, rel, [], {}, rel, 0)
  {
  }

  lemma FollowNext(graph: Links, files: set<Bytes>, known: set<Bytes>, rel: Bytes, trail: seq<Bytes>, chain: set<Bytes>,
                   current: Bytes, rounds: nat)
    requires Following(graph, files, known, rel, trail, chain, current, rounds)
    requires current !in files && current !in known && current !in chain && current in graph && graph[current].Some?
    ensures Following(graph, files, known, rel, trail + [current], chain + {current}, graph[current].value, rounds + 1)
    ensures graph.Keys - (chain + {current}) < graph.Keys - chain
  {
    hide Trail, Step, Walking;
    StepGoes(graph, files, current);
    TrailGrows(graph, files, trail, current, graph[current].value);
    NextWalked(known, graph.Keys, chain, current, rounds);
    assert current in graph.Keys - chain;
  }

  /** The whole chain has the answer of its last node. */
  lemma FollowEnd(graph: Links, files: set<Bytes>, known: set<Bytes>, rel: Bytes, trail: seq<Bytes>, chain: set<Bytes>,
                  current: Bytes, rounds: nat, answer: Option<Bytes>)
    requires Following(graph, files, known, rel, trail, chain, current, rounds) && Answers(graph, files, current, answer)
    ensures Answers(graph, files, rel, answer) && forall x :: x in chain ==> Answers(graph, files, x, answer)
    ensures Walked(known, graph.Keys, chain, rounds + 1)
    ensures current !in chain && current !in known ==> Walked(known, graph.Keys, chain + {current}, rounds + 1)
  {
    hide Trail, Answers, Walking, Walked;
    TrailAnswers(graph, files, trail, current, answer, 0);
    AllWalked(known, graph.Keys, chain, rounds);
    if current !in chain && current !in known {
      LastWalked(known, graph.Keys, chain, current, rounds);
    }
  }

  lemma FollowRing(graph: Links, files: set<Bytes>, known: set<Bytes>, rel: Bytes, trail: seq<Bytes>, chain: set<Bytes>,
                   current: Bytes, rounds: nat)
    requires Following(graph, files, known, rel, trail, chain, current, rounds) && current in chain
    ensures Answers(graph, files, current, None)
  {
    hide Trail, Dead, Answers, Walking;
    CycleDead(graph, files, trail, current);
    DeadAnswers(graph, files, current);
  }

  lemma DeadEnd(graph: Links, files: set<Bytes>, x: Bytes)
    requires x !in files && (x !in graph || graph[x].None?)
    ensures Answers(graph, files, x, None)
  {
    hide Dead, Answers;
    StepStops(graph, files, x);
    EndsHere(graph, files, x);
    DeadAnswers(graph, files, x);
  }

  /** Follows one chain until a file, a remembered answer, a repetition or a dead end. */
  method FollowChain(graph: Links, files: set<Bytes>, resolved: map<Bytes, Option<Bytes>>, rel: Bytes)
    returns (terminal: Option<Bytes>, chain: set<Bytes>, ghost rounds: nat)
    requires Memo(graph, files, resolved)
    ensures Walked(resolved.Keys, graph.Keys, chain, rounds)
    ensures Answers(graph, files, rel, terminal)
    ensures forall x :: x in chain ==> Answers(graph, files, x, terminal)
  {
    hide *;
    ghost var known := resolved.Keys;
    var current := rel;
    chain := {};
    rounds := 0;
    ghost var trail: seq<Bytes> := [];
    FollowStart(graph, files, known, rel);
    while true
      invariant Following(graph, files, known, rel, trail, chain, current, rounds)
      decreases graph.Keys - chain
    {
      rounds := rounds + 1;
      if current in files {
        FileAnswers(graph, files, current);
        terminal := Some(current);
        break;
      }
      if current in resolved {
        MemoAnswers(graph, files, resolved, current);
        terminal := resolved[current];
        break;
      }
      if current in chain {
        FollowRing(graph, files, known, rel, trail, chain, current, rounds - 1);
        terminal := None;
        break;
      }
      if current !in graph || graph[current].None? {
        DeadEnd(graph, files, current);
        FollowEnd(graph, files, known, rel, trail, chain, current, rounds - 1, None);
        chain := chain + {current};
        terminal := None;
        return;
      }
      FollowNext(graph, files, known, rel, trail, chain, current, rounds - 1);
      chain := chain + {current};
      trail := trail + [current];
      current := graph[current].value;
    }
    FollowEnd(graph, files, known, rel, trail, chain, current, rounds - 1, terminal);
  }

  /** One round for each node of the chain; none of them has been walked before. */
  ghost predicate Walking(known: set<Bytes>, keys: set<Bytes>, chain: set<Bytes>, rounds: nat) {
    rounds == |chain| && chain !! known && chain <= keys
  }

  /** One more round found the answer; at most one node of the chain is no link. */
  ghost predicate Walked(known: set<Bytes>, keys: set<Bytes>, chain: set<Bytes>, rounds: nat) {
    rounds <= |chain| + 1 && chain !! known && |chain| <= |chain * keys| + 1
  }

  lemma NextWalked(known: set<Bytes>, keys: set<Bytes>, chain: set<Bytes>, x: Bytes, rounds: nat)
    requires Walking(known, keys, chain, rounds) && x !in chain && x !in known && x in keys
    ensures Walking(known, keys, chain + {x}, rounds + 1)
  {
  }

  lemma LastWalked(known: set<Bytes>, keys: set<Bytes>, chain: set<Bytes>, x: Bytes, rounds: nat)
    requires Walking(known, keys, chain, rounds) && x !in chain && x !in known
    ensures Walked(known, keys, chain + {x}, rounds + 1)
  {
    assert (chain + {x}) * keys == if x in keys then chain + {x} else chain;
  }

  lemma AllWalked(known: set<Bytes>, keys: set<Bytes>, chain: set<Bytes>, rounds: nat)
    requires Walking(known, keys, chain, rounds)
    ensures Walked(known, keys, chain, rounds + 1)
  {
    assert chain * keys == chain;
  }

  lemma MemoAnswers(graph: Links, files: set<Bytes>, resolved: map<Bytes, Option<Bytes>>, x: Bytes)
    requires Memo(graph, files, resolved) && x in resolved
    ensures Answers(graph, files, x, resolved[x])
  {
  }

  lemma TrailGrows(graph: Links, files: set<Bytes>, trail: seq<Bytes>, current: Bytes, next: Bytes)
    requires Trail(graph, files, trail, current) && Step(graph, files, current) == Some(next)
    ensures Trail(graph, files, trail + [current], next)
  {
    forall i | 0 <= i < |trail + [current]|
      ensures Hop(graph, files, trail + [current], next, i)
    {
      assert i < |trail| ==> Hop(graph, files, trail, current, i);
    }
  }

  lemma FileAnswers(graph: Links, files: set<Bytes>, x: Bytes)
    requires x in files
    ensures Answers(graph, files, x, Some(x))
  {
    EndsHere(graph, files, x);
  }

  lemma DeadAnswers(graph: Links, files: set<Bytes>, x: Bytes)
    requires Dead(graph, files, x)
    ensures Answers(graph, files, x, None)
  {
  }

  lemma StepStops(graph: Links, files: set<Bytes>, x: Bytes)
    requires x !in graph || graph[x].None?
    ensures Step(graph, files, x) == None
  {
  }

  lemma StepGoes(graph: Links, files: set<Bytes>, x: Bytes)
    requires x !in files && x in graph && graph[x].Some?
    ensures Step(graph, files, x) == graph[x]
  {
  }

  /** The links with an answer, in order, each with its file. */
  function Collect(links: seq<Bytes>, answers: seq<Option<Bytes>>): seq<(Bytes, Bytes)>
    requires |links| == |answers|
  {
    if links == [] then []
    else
      var n := |links| - 1;
      Collect(links[..n], answers[..n]) + (if answers[n].Some? then [(links[n], answers[n].value)] else [])
  }

  lemma {:induction false} CollectMembers(links: seq<Bytes>, answers: seq<Option<Bytes>>, p: (Bytes, Bytes))
    requires |links| == |answers|
    ensures p in Collect(links, answers) <==> exists i :: 0 <= i < |links| && links[i] == p.0 && answers[i] == Some(p.1)
  {
    if links != [] {
      var n := |links| - 1;
      CollectMembers(links[..n], answers[..n], p);
    }
  }

  lemma AnswersMeans(graph: Links, files: set<Bytes>, x: Bytes, r: Option<Bytes>, t: Bytes)
    requires Answers(graph, files, x, r)
    ensures EndsAt(graph, files, x, t) <==> r == Some(t)
  {
  }

  lemma CollectedEnds(graph: Links, files: set<Bytes>, links: seq<Bytes>, answers: seq<Option<Bytes>>, p: (Bytes, Bytes))
    requires |links| == |answers| && forall i :: 0 <= i < |links| ==> Answers(graph, files, links[i], answers[i])
    ensures p in Collect(links, answers) <==> p.0 in links && EndsAt(graph, files, p.0, p.1)
  {
    hide Answers, EndsAt;
    CollectMembers(links, answers, p);
    forall i | 0 <= i < |links|
      ensures EndsAt(graph, files, links[i], p.1) <==> answers[i] == Some(p.1)
    {
      AnswersMeans(graph, files, links[i], answers[i], p.1);
    }
  }

  /** The memo with `answer` for every node of the chain. */
  function Remember(resolved: map<Bytes, Option<Bytes>>, chain: set<Bytes>, answer: Option<Bytes>): map<Bytes, Option<Bytes>> {
    resolved + map x | x in chain :: answer
  }

  lemma Remembered(graph: Links, files: set<Bytes>, resolved: map<Bytes, Option<Bytes>>, chain: set<Bytes>, answer: Option<Bytes>)
    requires Memo(graph, files, resolved) && forall x :: x in chain ==> Answers(graph, files, x, answer)
    ensures Memo(graph, files, Remember(resolved, chain, answer))
    ensures Remember(resolved, chain, answer).Keys == resolved.Keys + chain
  {
    hide Answers;
  }

  lemma NothingKnown(graph: Links, files: set<Bytes>)
    ensures Memo(graph, files, map[])
  {
  }

  /** After `n` links, as many rounds as twice the remembered nodes and one for each link; at most one node per link is
      no link itself. */
  ghost predicate Spent(graph: Links, known: set<Bytes>, rounds: nat, n: nat) {
    rounds <= 2 * |known| + n && |known| <= |known * graph.Keys| + n
  }

  lemma SpentNext(graph: Links, known: set<Bytes>, rounds: nat, n: nat, chain: set<Bytes>, walked: nat)
    requires Spent(graph, known, rounds, n) && Walked(known, graph.Keys, chain, walked)
    ensures Spent(graph, known + chain, rounds + walked + |chain|, n + 1)
  {
    assert (known + chain) * graph.Keys == known * graph.Keys + chain * graph.Keys;
  }

  lemma SpentInAll(graph: Links, known: set<Bytes>, rounds: nat, n: nat)
    requires Spent(graph, known, rounds, n)
    ensures rounds <= 2 * |graph| + 3 * n
  {
    SubsetSize(known * graph.Keys, graph.Keys);
  }

  lemma SpentNothing(graph: Links)
    ensures Spent(graph, {}, 0, 0)
  {
  }

  /** The answers for the first `n` links, collected. */
  ghost predicate Collected(graph: Links, files: set<Bytes>, links: seq<Bytes>, answers: seq<Option<Bytes>>,
                            redirects: seq<(Bytes, Bytes)>, n: nat) {
    && |answers| == n <= |links| && redirects == Collect(links[..n], answers)
    && forall j :: 0 <= j < n ==> Answers(graph, files, links[j], answers[j])
  }

  lemma CollectNext(graph: Links, files: set<Bytes>, links: seq<Bytes>, answers: seq<Option<Bytes>>,
                    redirects: seq<(Bytes, Bytes)>, n: nat, r: Option<Bytes>)
    requires Collected(graph, files, links, answers, redirects, n) && n < |links| && Answers(graph, files, links[n], r)
    ensures Collected(graph, files, links, answers + [r], if r.Some? then redirects + [(links[n], r.value)] else redirects, n + 1)
  {
    hide Answers;
    assert links[..n + 1][..n] == links[..n] && (answers + [r])[..n] == answers;
  }

  lemma CollectAll(graph: Links, files: set<Bytes>, links: seq<Bytes>, answers: seq<Option<Bytes>>, redirects: seq<(Bytes, Bytes)>)
    requires Collected(graph, files, links, answers, redirects, |links|)
    ensures |answers| == |links| && redirects == Collect(links, answers)
    ensures forall i :: 0 <= i < |links| ==> Answers(graph, files, links[i], answers[i])
    ensures forall p :: p in redirects <==> p.0 in links && EndsAt(graph, files, p.0, p.1)
  {
    hide Answers, EndsAt, Collect;
    assert links[..|links|] == links;
    forall p
      ensures p in redirects <==> p.0 in links && EndsAt(graph, files, p.0, p.1)
    {
      CollectedEnds(graph, files, links, answers, p);
    }
  }

  /** Emits (link, file), in the order of the links, for exactly the links whose uncached chain ends at an ingested
      file, with that file. Following the chains and remembering the answers take linearly many rounds in all. */
  method ResolveSymlinks(graph: Links, files: set<Bytes>, links: seq<Bytes>)
    returns (redirects: seq<(Bytes, Bytes)>, ghost answers: seq<Option<Bytes>>, ghost rounds: nat)
    ensures |answers| == |links| && redirects == Collect(links, answers)
    ensures forall i :: 0 <= i < |links| ==> Answers(graph, files, links[i], answers[i])
    ensures forall p :: p in redirects <==> p.0 in links && EndsAt(graph, files, p.0, p.1)
    ensures rounds <= 2 * |graph| + 3 * |links|
  {
    var resolved: map<Bytes, Option<Bytes>> := map[];
    redirects := [];
    answers := [];
    rounds := 0;
    SpentNothing(graph);
    assert Collected(graph, files, links, answers, redirects, 0);
    NothingKnown(graph, files);
    hide *;
    for i := 0 to |links|
      invariant Memo(graph, files, resolved) && Spent(graph, resolved.Keys, rounds, i)
      invariant Collected(graph, files, links, answers, redirects, i)
    {
      ghost var walked;
      var terminal, chain;
      terminal, chain, walked := FollowChain(graph, files, resolved, links[i]);
      SpentNext(graph, resolved.Keys, rounds, i, chain, walked);
      CollectNext(graph, files, links, answers, redirects, i, terminal);
      Remembered(graph, files, resolved, chain, terminal);
      resolved := Remember(resolved, chain, terminal);
      rounds := rounds + walked + |chain|;
      answers := answers + [terminal];
      if terminal.Some? {
        redirects := redirects + [(links[i], terminal.value)];
      }
    }
    SpentInAll(graph, resolved.Keys, rounds, |links|);
    CollectAll(graph, files, links, answers, redirects);
  }
}
