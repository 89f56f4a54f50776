/** Redirect graphs: the memoised walks of `finalize` and `zimcheck`, against walking every chain on its own. */
module Graph {
  import opened Outcome

  type Next = seq<Option<nat>>

  /** Every successor is a node. */
  ghost predicate Closed(next: Next) {
    forall i :: 0 <= i < |next| && next[i].Some? ==> next[i].value < |next|
  }

  /** The node `k` steps behind `i`, None when the chain is shorter. */
  ghost function Hop(next: Next, i: nat, k: nat): (r: Option<nat>)
    requires Closed(next) && i < |next|
    ensures r.Some? ==> r.value < |next|
  {
    if k == 0 then Some(i)
    else
      match Hop(next, i, k - 1)
      case None => None
      case Some(j) => next[j]
  }

  ghost predicate Cyclic(next: Next)
    requires Closed(next)
  {
    exists i: nat, k: nat :: i < |next| && k > 0 && Hop(next, i, k) == Some(i)
  }

  /** The chain from `i` ends at the terminal `t` after `k` steps. */
  ghost predicate EndsIn(next: Next, i: nat, t: nat, k: nat)
    requires Closed(next) && i < |next|
  {
    Hop(next, i, k) == Some(t) && next[t] == None
  }

  ghost predicate Ends(next: Next, i: nat, t: nat)
    requires Closed(next) && i < |next|
  {
    exists k: nat :: EndsIn(next, i, t, k)
  }

  lemma {:induction false} HopFront(next: Next, i: nat, k: nat)
    requires Closed(next) && i < |next| && next[i].Some?
    ensures Hop(next, i, k + 1) == Hop(next, next[i].value, k)
  {
    if k == 0 {
      assert Hop(next, i, 0) == Some(i);
      assert Hop(next, i, 1) == next[i];
    } else {
      HopFront(next, i, k - 1);
    }
  }

  lemma {:induction false} HopAdd(next: Next, i: nat, a: nat, b: nat)
    requires Closed(next) && i < |next|
    ensures Hop(next, i, a + b) ==
      match Hop(next, i, a) case None => None case Some(j) => Hop(next, j, b)
  {
    if b > 0 {
      HopAdd(next, i, a, b - 1);
      assert Hop(next, i, a + b) == match Hop(next, i, a + (b - 1)) case None => None case Some(j) => next[j];
    }
  }

  lemma EndsStep(next: Next, i: nat, t: nat)
    requires Closed(next) && i < |next| && next[i].Some?
    ensures Ends(next, next[i].value, t) <==> Ends(next, i, t)
  {
    if Ends(next, next[i].value, t) {
      var k: nat :| EndsIn(next, next[i].value, t, k);
      HopFront(next, i, k);
      assert EndsIn(next, i, t, k + 1);
    }
    if Ends(next, i, t) {
      var k: nat :| EndsIn(next, i, t, k);
      assert k > 0 by {
        assert Hop(next, i, 0) == Some(i);
      }
      HopFront(next, i, k - 1);
      assert EndsIn(next, next[i].value, t, k - 1);
    }
  }

  lemma EndsHere(next: Next, i: nat)
    requires Closed(next) && i < |next| && next[i] == None
    ensures Ends(next, i, i)
  {
    assert EndsIn(next, i, i, 0);
  }

  lemma NothingPastEnd(next: Next, i: nat, t: nat, k: nat, m: nat)
    requires Closed(next) && i < |next| && EndsIn(next, i, t, k) && k < m
    ensures Hop(next, i, m) == None
  {
    HopAdd(next, i, k, m - k);
    HopAdd(next, t, 1, m - k - 1);
    assert Hop(next, t, 0) == Some(t);
    assert Hop(next, t, 1) == next[t];
  }

  /** A chain has at most one end, and a fixed length. */
  lemma EndsUnique(next: Next, i: nat, t: nat, u: nat, k: nat, m: nat)
    requires Closed(next) && i < |next| && EndsIn(next, i, t, k) && EndsIn(next, i, u, m)
    ensures t == u && k == m
  {
    if k < m {
      NothingPastEnd(next, i, t, k, m);
    } else if m < k {
      NothingPastEnd(next, i, u, m, k);
    }
  }

  /** A node whose chain ends is on no cycle. */
  lemma {:induction false} EndingOffCycle(next: Next, i: nat, t: nat, k: nat, c: nat)
    requires Closed(next) && i < |next| && EndsIn(next, i, t, k)
    requires c > 0 && Hop(next, i, c) == Some(i)
    ensures false
    decreases k
  {
    HopAdd(next, i, 1, c - 1);
    assert Hop(next, i, 0) == Some(i);
    assert Hop(next, i, 1) == next[i];
    if k > 0 {
      HopFront(next, i, k - 1);
      HopAdd(next, i, c, 1);
      HopFront(next, i, c);
      assert Hop(next, i, c + 1) == next[i];
      EndingOffCycle(next, next[i].value, t, k - 1, c);
    }
  }

  ghost predicate Ending(next: Next, i: nat)
    requires Closed(next) && i < |next|
  {
    exists t: nat :: Ends(next, i, t)
  }

  lemma AllEndAcyclic(next: Next)
    requires Closed(next) && forall i: nat :: i < |next| ==> Ending(next, i)
    ensures !Cyclic(next)
  {
    if Cyclic(next) {
      var i: nat, c: nat :| i < |next| && c > 0 && Hop(next, i, c) == Some(i);
      assert Ending(next, i);
      var t: nat :| Ends(next, i, t);
      var k: nat :| EndsIn(next, i, t, k);
      EndingOffCycle(next, i, t, k, c);
    }
  }

  // ---- Paths ----

  /** `path` follows the graph and its last node leads to `current`. */
  ghost predicate Path(next: Next, path: seq<nat>, current: nat)
    requires Closed(next)
  {
    && current < |next|
    && (forall p :: 0 <= p < |path| ==> path[p] < |next|)
    && (forall p :: 0 <= p < |path| ==> Link(next, path, current, p))
  }

  ghost predicate Link(next: Next, path: seq<nat>, current: nat, p: nat)
    requires p < |path| && path[p] < |next|
  {
    next[path[p]] == Some(if p + 1 < |path| then path[p + 1] else current)
  }

  lemma {:induction false} PathHop(next: Next, path: seq<nat>, current: nat, p: nat)
    requires Closed(next) && Path(next, path, current) && p < |path|
    ensures Hop(next, path[p], |path| - p) == Some(current)
    decreases |path| - p
  {
    assert Link(next, path, current, p);
    if p + 1 < |path| {
      PathHop(next, path, current, p + 1);
      HopFront(next, path[p], |path| - p - 1);
    } else {
      assert Hop(next, path[p], 0) == Some(path[p]);
      assert Hop(next, path[p], 1) == next[path[p]];
    }
  }

  lemma PathBackIsCycle(next: Next, path: seq<nat>, current: nat)
    requires Closed(next) && Path(next, path, current) && current in path
    ensures Cyclic(next)
  {
    var p :| 0 <= p < |path| && path[p] == current;
    PathHop(next, path, current, p);
  }

  lemma {:induction false} PathEnds(next: Next, path: seq<nat>, current: nat, t: nat, p: nat)
    requires Closed(next) && Path(next, path, current) && p < |path| && Ends(next, current, t)
    ensures Ends(next, path[p], t)
    decreases |path| - p
  {
    assert Link(next, path, current, p);
    if p + 1 < |path| {
      PathEnds(next, path, current, t, p + 1);
    }
    EndsStep(next, path[p], t);
  }

  lemma PathExtend(next: Next, path: seq<nat>, current: nat, onward: nat)
    requires Closed(next) && Path(next, path, current) && next[current] == Some(onward)
    ensures Path(next, path + [current], onward)
  {
    var longer := path + [current];
    forall p | 0 <= p < |longer|
      ensures Link(next, longer, onward, p)
    {
      assert p < |path| ==> Link(next, path, current, p);
    }
  }

  // ---- The walk of `finalize` ----

  /** Each settled label (2: no, 3: yes) is the flag of the chain's terminal, recorded in `term`. */
  ghost predicate Settled(next: Next, flags: seq<bool>, labels: seq<nat>, term: seq<nat>)
    requires Closed(next)
  {
    && |flags| == |labels| == |term| == |next|
    && (forall i :: 0 <= i < |next| ==> labels[i] <= 3)
    && (forall i :: 0 <= i < |next| && labels[i] >= 2 ==> SettledAt(next, flags, labels[i], i, term[i]))
  }

  ghost predicate SettledAt(next: Next, flags: seq<bool>, mark: nat, i: nat, t: nat)
    requires Closed(next) && i < |next| == |flags|
  {
    t < |next| && Ends(next, i, t) && (mark == 3 <==> flags[t])
  }

  /** The nodes labelled 1 are those of the chain being followed. */
  ghost predicate Marked(labels: seq<nat>, chain: seq<nat>) {
    && (forall p :: 0 <= p < |chain| ==> chain[p] < |labels| && labels[chain[p]] == 1)
    && (forall i :: 0 <= i < |labels| && labels[i] == 1 ==> i in chain)
  }

  ghost function Unseen(labels: seq<nat>): set<nat> {
    set i | 0 <= i < |labels| && labels[i] == 0
  }

  lemma MarkOne(labels: seq<nat>, i: nat, v: nat)
    requires i < |labels| && v != 0
    ensures labels[i] == 0 ==> Unseen(labels[i := v]) == Unseen(labels) - {i} && i in Unseen(labels)
    ensures labels[i] == 0 ==> |Unseen(labels[i := v])| == |Unseen(labels)| - 1
    ensures labels[i] != 0 ==> Unseen(labels[i := v]) == Unseen(labels)
    ensures i !in Unseen(labels[i := v])
  {
    if labels[i] == 0 {
      assert Unseen(labels[i := v]) == Unseen(labels) - {i};
    } else {
      assert Unseen(labels[i := v]) == Unseen(labels);
    }
  }

  lemma UnseenAll(labels: seq<nat>)
    ensures |Unseen(labels)| <= |labels|
  {
    if labels != [] {
      var front := labels[..|labels| - 1];
      UnseenAll(front);
      var last := |labels| - 1;
      assert Unseen(labels) == if labels[last] == 0 then Unseen(front) + {last} else Unseen(front);
    }
  }

  lemma MarkNode(next: Next, flags: seq<bool>, labels: seq<nat>, term: seq<nat>, chain: seq<nat>, i: nat)
    requires Closed(next) && Settled(next, flags, labels, term) && Marked(labels, chain)
    requires i < |labels| && labels[i] == 0
    ensures Settled(next, flags, labels[i := 1], term) && Marked(labels[i := 1], chain + [i])
  {
  }

  /** Follows the chain from `start` until it meets a settled node, a terminal or itself. */
  method Follow(next: Next, flags: seq<bool>, e: array<nat>, start: nat, ghost term: seq<nat>)
    returns (r: Result<bool>, chain: seq<nat>, ghost t: nat, ghost rounds: nat)
    requires Closed(next) && e.Length == |next| && start < |next|
    requires Settled(next, flags, e[..], term) && Marked(e[..], [])
    modifies e
    ensures Settled(next, flags, e[..], term)
    ensures r.Err? ==> r.error == InvalidInput && Cyclic(next)
    ensures r.Ok? ==> Marked(e[..], chain) && e[start] != 0 && t < |next| && r.value == flags[t]
    ensures r.Ok? ==> forall p :: 0 <= p < |chain| ==> Ends(next, chain[p], t)
    ensures forall i :: 0 <= i < |next| && old(e[i]) != 0 ==> e[i] == old(e[i])
    ensures rounds + |Unseen(e[..])| <= |Unseen(old(e[..]))| + 1
    ensures |chain| + |Unseen(e[..])| == |Unseen(old(e[..]))|
  {
    hide Path, Ends, Cyclic, Closed, Unseen;
    var current := start;
    chain := [];
    t := 0;
    rounds := 0;
    PathEmpty(next, start);
    while true
      invariant 0 <= current < |next|
      invariant Settled(next, flags, e[..], term) && Marked(e[..], chain) && Path(next, chain, current)
      invariant e[start] != 0 || current == start
      invariant forall i :: 0 <= i < |next| && old(e[i]) != 0 ==> e[i] == old(e[i])
      invariant rounds + |Unseen(e[..])| <= |Unseen(old(e[..]))|
      invariant |chain| + |Unseen(e[..])| == |Unseen(old(e[..]))|
      decreases |Unseen(e[..])|
    {
      rounds := rounds + 1;
      if e[current] == 1 {
        assert e[..][current] == 1;
        PathBackIsCycle(next, chain, current);
        return Err(InvalidInput), chain, 0, rounds;
      }
      if e[current] != 0 {
        t := term[current];
        assert SettledAt(next, flags, e[..][current], current, t);
        PathEndsAll(next, chain, current, t);
        return Ok(e[current] == 3), chain, t, rounds;
      }
      MarkOne(e[..], current, 1);
      MarkNode(next, flags, e[..], term, chain, current);
      ghost var labels := e[..];
      e[current] := 1;
      assert e[..] == labels[current := 1];
      ghost var path := chain;
      chain := chain + [current];
      if next[current].None? {
        t := current;
        EndsHere(next, current);
        PathEndsAll(next, path, current, t);
        return Ok(flags[current]), chain, t, rounds;
      }
      PathExtend(next, path, current, next[current].value);
      PathNode(next, chain, next[current].value);
      current := next[current].value;
    }
  }

  lemma PathEmpty(next: Next, current: nat)
    requires Closed(next) && current < |next|
    ensures Path(next, [], current)
  {
  }

  lemma PathNode(next: Next, path: seq<nat>, current: nat)
    requires Closed(next) && Path(next, path, current)
    ensures current < |next|
  {
  }

  lemma PathEndsAll(next: Next, path: seq<nat>, current: nat, t: nat)
    requires Closed(next) && Path(next, path, current) && Ends(next, current, t)
    ensures forall p :: 0 <= p < |path| ==> Ends(next, path[p], t)
  {
    forall p | 0 <= p < |path|
      ensures Ends(next, path[p], t)
    {
      PathEnds(next, path, current, t, p);
    }
  }

  /** Gives every node of the finished chain its label, one round each. */
  method Drain(next: Next, flags: seq<bool>, e: array<nat>, chain: seq<nat>, eligible: bool, ghost term: seq<nat>, ghost t: nat)
    returns (ghost settled: seq<nat>, ghost rounds: nat)
    requires Closed(next) && e.Length == |next| && t < |next| == |flags| && eligible == flags[t]
    requires Settled(next, flags, e[..], term) && Marked(e[..], chain)
    requires forall p :: 0 <= p < |chain| ==> Ends(next, chain[p], t)
    modifies e
    ensures Settled(next, flags, e[..], settled) && Marked(e[..], [])
    ensures Unseen(e[..]) == Unseen(old(e[..])) && rounds == |chain|
    ensures forall i :: 0 <= i < |next| ==> (e[i] != 0 <==> old(e[i]) != 0)
  {
    settled := term;
    rounds := 0;
    for k := 0 to |chain|
      invariant Settled(next, flags, e[..], settled)
      invariant forall i :: 0 <= i < |next| ==> (e[i] != 0 <==> old(e[i]) != 0)
      invariant forall i :: 0 <= i < |next| && e[i] == 1 ==> i in chain[k..]
      invariant Unseen(e[..]) == Unseen(old(e[..])) && rounds == k
    {
      rounds := rounds + 1;
      ghost var labels := e[..];
      var mark := if eligible then 3 else 2;
      MarkOne(labels, chain[k], mark);
      e[chain[k]] := mark;
      settled := settled[chain[k] := t];
      assert e[..] == labels[chain[k] := mark];
      assert SettledAt(next, flags, mark, chain[k], t);
      assert forall i :: i in chain[k..] ==> i == chain[k] || i in chain[k + 1..];
    }
  }

  /** The chain from `i` ends, at a terminal whose flag is `v`. */
  ghost predicate Yields(next: Next, flags: seq<bool>, i: nat, v: bool)
    requires Closed(next) && i < |next| == |flags|
  {
    exists t: nat :: t < |next| && Ends(next, i, t) && flags[t] == v
  }

  /** `out` gives every node the flag of the end of its chain. */
  ghost predicate Classified(next: Next, flags: seq<bool>, out: seq<bool>)
    requires Closed(next) && |flags| == |next|
  {
    |out| == |next| && forall i: nat :: i < |next| ==> Yields(next, flags, i, out[i])
  }

  lemma AllYieldAcyclic(next: Next, flags: seq<bool>, out: seq<bool>)
    requires Closed(next) && |flags| == |next| && Classified(next, flags, out)
    ensures !Cyclic(next)
  {
    forall i: nat | i < |next|
      ensures Ending(next, i)
    {
      assert Yields(next, flags, i, out[i]);
    }
    AllEndAcyclic(next);
  }

  /** Follows every chain once. It fails exactly when there is a cycle; otherwise each node gets the flag of
      the end of its chain. Walking the chains and labelling them take at most three loop rounds per node in all. */
  method Classify(next: Next, flags: seq<bool>) returns (r: Result<seq<bool>>, ghost rounds: nat)
    requires Closed(next) && |flags| == |next|
    ensures r.Err? <==> Cyclic(next)
    ensures r.Err? ==> r.error == InvalidInput
    ensures r.Ok? ==> Classified(next, flags, r.value)
    ensures rounds <= 3 * |next|
  {
    var n := |next|;
    var e := new nat[n](_ => 0);
    ghost var term: seq<nat> := seq(n, _ => 0);
    rounds := 0;
    UnseenAll(e[..]);
    for start := 0 to n
      invariant Settled(next, flags, e[..], term) && Marked(e[..], [])
      invariant forall i :: 0 <= i < start ==> e[i] != 0
      invariant rounds + 2 * |Unseen(e[..])| <= 2 * n + start
    {
      ghost var more;
      ghost var t;
      var eligible;
      var chain;
      eligible, chain, t, more := Follow(next, flags, e, start, term);
      rounds := rounds + more;
      if eligible.Err? {
        return Err(InvalidInput), rounds;
      }
      term, more := Drain(next, flags, e, chain, eligible.value, term, t);
      rounds := rounds + more;
    }
    var labels := e[..];
    var eligible := seq(n, i requires 0 <= i < n => labels[i] == 3);
    forall i: nat | i < n
      ensures Yields(next, flags, i, eligible[i])
    {
      assert SettledAt(next, flags, labels[i], i, term[i]);
    }
    AllYieldAcyclic(next, flags, eligible);
    return Ok(eligible), rounds;
  }


  // ---- The three-colour walk of `zimcheck` ----

  /** Black nodes (2) have chains that end; grey nodes (1) are those of `chain`. */
  ghost predicate Coloured(next: Next, visited: seq<nat>, chain: seq<nat>)
    requires Closed(next)
  {
    && |visited| == |next|
    && (forall i :: 0 <= i < |next| ==> visited[i] <= 2)
    && (forall i :: 0 <= i < |next| && visited[i] == 2 ==> Ending(next, i))
    && Marked(visited, chain)
    && (forall p, q :: 0 <= p < q < |chain| ==> chain[p] != chain[q])
  }

  lemma EndingStep(next: Next, i: nat)
    requires Closed(next) && i < |next| && next[i].Some?
    ensures Ending(next, next[i].value) <==> Ending(next, i)
  {
    if Ending(next, next[i].value) {
      var t: nat :| Ends(next, next[i].value, t);
      EndsStep(next, i, t);
    }
    if Ending(next, i) {
      var t: nat :| Ends(next, i, t);
      EndsStep(next, i, t);
    }
  }

  /** A chain that comes back to itself never ends. */
  lemma PathBackNeverEnds(next: Next, path: seq<nat>, current: nat, p: nat)
    requires Closed(next) && Path(next, path, current) && current in path && p < |path|
    ensures !Ending(next, path[p])
    decreases |path| - p
  {
    assert Link(next, path, current, p);
    EndingStep(next, path[p]);
    if p + 1 < |path| {
      PathBackNeverEnds(next, path, current, p + 1);
    } else if Ending(next, current) {
      var q :| 0 <= q < |path| && path[q] == current;
      PathHop(next, path, current, q);
      var t: nat :| Ends(next, current, t);
      var k: nat :| EndsIn(next, current, t, k);
      EndingOffCycle(next, current, t, k, |path| - q);
    }
  }

  /** `chain` follows the graph; its last node is terminal or leads to `stop`. */
  ghost predicate Trail(next: Next, chain: seq<nat>, stop: nat) {
    && chain != [] && stop < |next|
    && (forall p :: 0 <= p < |chain| ==> chain[p] < |next|)
    && (forall p :: 0 <= p < |chain| - 1 ==> next[chain[p]] == Some(chain[p + 1]))
    && (next[chain[|chain| - 1]] == None || next[chain[|chain| - 1]] == Some(stop))
  }

  lemma TrailStep(next: Next, chain: seq<nat>, stop: nat, k: nat)
    requires Trail(next, chain, stop) && k < |chain|
    ensures chain[k] < |next|
    ensures k + 1 < |chain| ==> next[chain[k]] == Some(chain[k + 1])
    ensures k + 1 == |chain| ==> next[chain[k]] == None || next[chain[k]] == Some(stop)
    ensures stop < |next| && chain[|chain| - 1] < |next|
  {
  }

  /** Colours the chain from `start` grey; `current` is where it stopped. */
  method Grey(next: Next, visited: array<nat>, start: nat)
    returns (looped: bool, ghost chain: seq<nat>, ghost current: nat, ghost rounds: nat)
    requires Closed(next) && visited.Length == |next| && start < |next| && visited[start] == 0
    requires Coloured(next, visited[..], [])
    modifies visited
    ensures looped ==> Cyclic(next)
    ensures !looped ==> Coloured(next, visited[..], chain) && chain != [] && chain[0] == start
    ensures !looped ==> forall p :: 0 <= p < |chain| ==> Ending(next, chain[p])
    ensures !looped ==> Trail(next, chain, current) && (next[chain[|chain| - 1]].Some? ==> visited[current] == 2)
    ensures rounds + |Unseen(visited[..])| <= |Unseen(old(visited[..]))| + 1
    ensures |chain| + |Unseen(visited[..])| == |Unseen(old(visited[..]))|
    ensures Unseen(visited[..]) <= Unseen(old(visited[..])) && start !in Unseen(visited[..])
  {
    hide Path, Ending, Cyclic, Closed, Unseen;
    var at := start;
    chain := [];
    rounds := 0;
    PathEmpty(next, start);
    while true
      invariant 0 <= at < |next|
      invariant Coloured(next, visited[..], chain) && Path(next, chain, at)
      invariant if chain == [] then at == start && visited[at] == 0 else chain[0] == start
      invariant Unseen(visited[..]) <= Unseen(old(visited[..]))
      invariant chain != [] ==> start !in Unseen(visited[..])
      invariant rounds + |Unseen(visited[..])| <= |Unseen(old(visited[..]))|
      invariant |chain| + |Unseen(visited[..])| == |Unseen(old(visited[..]))|
      decreases |Unseen(visited[..])|
    {
      rounds := rounds + 1;
      current := at;
      if visited[at] == 1 {
        assert visited[..][at] == 1;
        PathBackIsCycle(next, chain, at);
        return true, chain, current, rounds;
      }
      if visited[at] == 2 {
        assert visited[..][at] == 2;
        PathIsEnding(next, chain, at);
        return false, chain, current, rounds;
      }
      MarkOne(visited[..], at, 1);
      GreyNode(next, visited[..], chain, at);
      ghost var colours := visited[..];
      visited[at] := 1;
      assert visited[..] == colours[at := 1];
      ghost var path := chain;
      chain := chain + [at];
      if next[at].None? {
        TerminalEnding(next, at);
        PathIsEnding(next, path, at);
        return false, chain, current, rounds;
      }
      PathExtend(next, path, at, next[at].value);
      PathNode(next, chain, next[at].value);
      at := next[at].value;
    }
  }

  lemma GreyNode(next: Next, visited: seq<nat>, chain: seq<nat>, i: nat)
    requires Closed(next) && Coloured(next, visited, chain) && i < |next| && visited[i] == 0
    ensures Coloured(next, visited[i := 1], chain + [i])
  {
  }

  lemma TerminalEnding(next: Next, i: nat)
    requires Closed(next) && i < |next| && next[i] == None
    ensures Ending(next, i)
  {
    EndsHere(next, i);
  }

  lemma PathIsEnding(next: Next, path: seq<nat>, current: nat)
    requires Closed(next) && Path(next, path, current) && Ending(next, current)
    ensures forall p :: 0 <= p < |path| ==> Ending(next, path[p])
    ensures forall p :: 0 <= p < |path| - 1 ==> next[path[p]] == Some(path[p + 1])
    ensures path != [] ==> next[path[|path| - 1]] == Some(current)
  {
    var t: nat :| Ends(next, current, t);
    PathEndsAll(next, path, current, t);
    forall p | 0 <= p < |path|
      ensures next[path[p]] == Some(if p + 1 < |path| then path[p + 1] else current)
    {
      assert Link(next, path, current, p);
    }
    if path != [] {
      assert Link(next, path, current, |path| - 1);
    }
  }

  /** Blackens the grey chain from `start` on, one round for each node. */
  method Blacken(next: Next, visited: array<nat>, start: nat, ghost chain: seq<nat>, ghost stop: nat) returns (ghost rounds: nat)
    requires Closed(next) && visited.Length == |next| && Coloured(next, visited[..], chain)
    requires chain != [] && chain[0] == start
    requires forall p :: 0 <= p < |chain| ==> Ending(next, chain[p])
    requires Trail(next, chain, stop) && (next[chain[|chain| - 1]].Some? ==> visited[stop] == 2)
    modifies visited
    ensures Coloured(next, visited[..], []) && Unseen(visited[..]) == Unseen(old(visited[..])) && rounds == |chain|
  {
    hide Ending, Unseen, Closed, Trail, Coloured;
    TrailStep(next, chain, stop, 0);
    assert chain[0..] == chain;
    var current := start;
    ghost var k := 0;
    ChainGrey(next, visited[..], chain);
    rounds := 0;
    while visited[current] == 1
      invariant 0 <= k <= |chain| && rounds == k && 0 <= current < |next|
      invariant Coloured(next, visited[..], chain[k..])
      invariant if k < |chain| then current == chain[k] && visited[current] == 1 else visited[current] == 2
      invariant next[chain[|chain| - 1]].Some? ==> visited[stop] == 2
      invariant Unseen(visited[..]) == Unseen(old(visited[..]))
      decreases |chain| - k
    {
      rounds := rounds + 1;
      assert visited[..][current] == 1;
      MarkOne(visited[..], current, 2);
      ghost var colours := visited[..];
      BlackenNode(next, colours, chain[k..]);
      visited[current] := 2;
      assert visited[..] == colours[current := 2];
      assert chain[k..][1..] == chain[k + 1..];
      TrailStep(next, chain, stop, k);
      k := k + 1;
      ChainGrey(next, visited[..], chain[k..]);
      if next[current].None? {
        break;
      }
      current := next[current].value;
    }
    assert chain[|chain|..] == [];
  }

  lemma ChainGrey(next: Next, visited: seq<nat>, chain: seq<nat>)
    requires Closed(next) && Coloured(next, visited, chain)
    ensures |visited| == |next| && (chain != [] ==> chain[0] < |visited| && visited[chain[0]] == 1)
  {
    if chain != [] {
      assert chain[0] in chain;
    }
  }

  lemma BlackenNode(next: Next, visited: seq<nat>, chain: seq<nat>)
    requires Closed(next) && Coloured(next, visited, chain) && chain != [] && chain[0] < |next| && Ending(next, chain[0])
    ensures Coloured(next, visited[chain[0] := 2], chain[1..])
  {
    hide Ending;
    var after := visited[chain[0] := 2];
    forall i | 0 <= i < |after| && after[i] == 1
      ensures i in chain[1..]
    {
      assert i in chain;
    }
  }

  /** Reports a loop exactly when the redirect graph has a cycle, at any chain depth. Colouring the nodes grey and then
      black takes at most three loop rounds per node in all. */
  method CheckRedirects(next: Next) returns (looped: bool, ghost rounds: nat)
    requires Closed(next)
    ensures looped <==> Cyclic(next)
    ensures rounds <= 3 * |next|
  {
    var n := |next|;
    var visited := new nat[n](_ => 0);
    rounds := 0;
    UnseenAll(visited[..]);
    for start := 0 to n
      invariant Coloured(next, visited[..], [])
      invariant forall i :: 0 <= i < start ==> i !in Unseen(visited[..])
      invariant rounds + 2 * |Unseen(visited[..])| <= 2 * n + start
    {
      if visited[start] == 0 {
        ghost var chain;
        ghost var stop;
        ghost var more;
        looped, chain, stop, more := Grey(next, visited, start);
        rounds := rounds + more;
        if looped {
          return true, rounds;
        }
        more := Blacken(next, visited, start, chain, stop);
        rounds := rounds + more;
      }
    }
    forall i: nat | i < n
      ensures Ending(next, i)
    {
      assert i !in Unseen(visited[..]);
      assert visited[..][i] == 2;
    }
    AllEndAcyclic(next);
    return false, rounds;
  }

  /** The per-entry check: following the chain from `i` and stopping at a repeated node finds the end of the
      chain exactly when it has one. */
  method FollowLoop(next: Next, i: nat) returns (r: Result<nat>)
    requires Closed(next) && i < |next|
    ensures r.Ok? <==> Ending(next, i)
    ensures r.Ok? ==> Ends(next, i, r.value)
    ensures r.Err? ==> r.error == RedirectLoop
  {
    hide Path, Ending, Ends, Closed;
    var current := i;
    var seen: set<nat> := {};
    ghost var path: seq<nat> := [];
    PathEmpty(next, i);
    while next[current].Some?
      invariant 0 <= current < |next| && Path(next, path, current)
      invariant if path == [] then current == i else path[0] == i
      invariant forall x :: x in seen <==> x in path
      invariant seen <= Sources(next)
      decreases |Sources(next) - seen|
    {
      if current in seen {
        PathBackNeverEnds(next, path, current, 0);
        return Err(RedirectLoop);
      }
      assert Sources(next) - (seen + {current}) == (Sources(next) - seen) - {current};
      seen := seen + {current};
      PathExtend(next, path, current, next[current].value);
      path := path + [current];
      PathNode(next, path, next[current].value);
      current := next[current].value;
    }
    EndsHere(next, current);
    if path != [] {
      PathEndsAll(next, path, current, current);
    }
    EndsIsEnding(next, i, current);
    return Ok(current);
  }

  ghost function Sources(next: Next): set<nat> {
    set i | 0 <= i < |next| && next[i].Some?
  }

  lemma EndsIsEnding(next: Next, i: nat, t: nat)
    requires Closed(next) && i < |next| && Ends(next, i, t)
    ensures Ending(next, i)
  {
  }
}
