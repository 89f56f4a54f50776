/** The `M/Counter` entry: how many content articles there are of each media type. */
module Histogram {
  import opened Outcome
  import opened Bytes
  import opened Text
  import opened Reader
  import opened Counting
  import opened MimeTypes
  import opened Numerals

  /** Namespace and type number of an article. */
  type Article = (byte, nat)

  type Count = (Bytes, nat)

  /** Content articles of type number `i`. */
  function Tally(articles: seq<Article>, i: nat): nat {
    if articles == [] then 0
    else
      Tally(articles[..|articles| - 1], i)
      + (if articles[|articles| - 1].0 == NS_CONTENT && articles[|articles| - 1].1 == i then 1 else 0)
  }

  function Find(counts: seq<Count>, key: Bytes): (r: Option<nat>)
    ensures r.Some? ==> r.value < |counts| && counts[r.value].0 == key
    ensures r.None? ==> forall i :: 0 <= i < |counts| ==> counts[i].0 != key
  {
    if counts == [] then None
    else
      match Find(counts[..|counts| - 1], key)
      case Some(i) => Some(i)
      case None => if counts[|counts| - 1].0 == key then Some(|counts| - 1) else None
  }

  /** Adds `n` articles of media type `key`. */
  function Add(counts: seq<Count>, key: Bytes, n: nat): seq<Count> {
    if n == 0 then counts
    else
      match Find(counts, key)
      case Some(i) => counts[i := (key, counts[i].1 + n)]
      case None => counts + [(key, n)]
  }

  /** Counts over the first `n` types; types that differ only in parameters fall together. */
  function Fold(mimes: seq<Bytes>, articles: seq<Article>, n: nat): seq<Count>
    requires n <= |mimes|
  {
    if n == 0 then [] else Add(Fold(mimes, articles, n - 1), Bare(mimes[n - 1]), Tally(articles, n - 1))
  }

  function Pair(c: Count): Bytes {
    c.0 + [61] + Decimal(c.1)
  }

  function Render(counts: seq<Count>, n: nat): Bytes
    requires n <= |counts|
  {
    if n == 0 then []
    else Render(counts, n - 1) + (if n > 1 then [59] else []) + Pair(counts[n - 1])
  }

  function CounterText(mimes: seq<Bytes>, articles: seq<Article>): Bytes {
    var counts := Fold(mimes, articles, |mimes|);
    Render(counts, |counts|)
  }

  // ---- Reading the text back ----

  function ReadPair(p: Bytes): Option<Count> {
    match FirstOf(p, 61)
    case None => None
    case Some(i) =>
      match ReadDecimal(p[i + 1..])
      case None => None
      case Some(n) => Some((p[..i], n))
  }

  function ReadPairs(text: Bytes): Option<seq<Count>>
    decreases |text|
  {
    match FirstOf(text, 59)
    case None =>
      (match ReadPair(text)
       case None => None
       case Some(c) => Some([c]))
    case Some(i) =>
      match ReadPair(text[..i])
      case None => None
      case Some(c) =>
        match ReadPairs(text[i + 1..])
        case None => None
        case Some(rest) => Some([c] + rest)
  }

  /** What a reader of the text finds: pairs separated by semicolons, each a type, an equals sign and a number. */
  function ReadCounter(text: Bytes): Option<seq<Count>> {
    if text == [] then Some([]) else ReadPairs(text)
  }

  /** A type that holds no separator. */
  predicate Plain(c: Count) {
    59 !in c.0 && 61 !in c.0
  }

  lemma PairReads(c: Count)
    requires Plain(c)
    ensures ReadPair(Pair(c)) == Some(c) && 59 !in Pair(c) && Pair(c) != []
  {
    DecimalExact(c.1);
    FirstBehind(c.0, 61, Decimal(c.1));
    assert Pair(c)[|c.0| + 1..] == Decimal(c.1) && Pair(c)[..|c.0|] == c.0;
  }

  lemma {:induction false} RenderFront(counts: seq<Count>, n: nat)
    requires 0 < n <= |counts|
    ensures Render(counts, n) == if n == 1 then Pair(counts[0]) else Pair(counts[0]) + [59] + Render(counts[1..], n - 1)
  {
    hide Pair;
    if n == 1 {
      assert Render(counts, 0) == [];
    } else {
      RenderFront(counts, n - 1);
      assert counts[1..][n - 2] == counts[n - 1];
      if n == 2 {
        assert Render(counts[1..], 0) == [];
      }
    }
  }

  lemma PairThenRest(c: Count, rest: Bytes)
    requires Plain(c)
    ensures ReadPairs(Pair(c)) == Some([c])
    ensures ReadPairs(rest).Some? ==> ReadPairs(Pair(c) + [59] + rest) == Some([c] + ReadPairs(rest).value)
  {
    hide Plain, Pair, ReadPair, FirstOf;
    PairReads(c);
    FirstBehind(Pair(c), 59, rest);
    var text := Pair(c) + [59] + rest;
    assert text[..|Pair(c)|] == Pair(c) && text[|Pair(c)| + 1..] == rest;
  }

  lemma {:induction false} PairsRead(counts: seq<Count>)
    requires counts != [] && forall i :: 0 <= i < |counts| ==> Plain(counts[i])
    ensures ReadPairs(Render(counts, |counts|)) == Some(counts)
  {
    hide Plain, Pair, ReadPairs, Render;
    RenderFront(counts, |counts|);
    if |counts| == 1 {
      PairThenRest(counts[0], []);
      assert counts == [counts[0]];
    } else {
      PairsRead(counts[1..]);
      PairThenRest(counts[0], Render(counts[1..], |counts| - 1));
      assert counts == [counts[0]] + counts[1..];
    }
  }

  /** The text reads back as exactly the counts it was made of. */
  lemma RenderReads(counts: seq<Count>)
    requires forall i :: 0 <= i < |counts| ==> Plain(counts[i])
    ensures ReadCounter(Render(counts, |counts|)) == Some(counts)
  {
    if counts != [] {
      PairsRead(counts);
      RenderFront(counts, |counts|);
      PairReads(counts[0]);
      hide Plain, Pair, ReadPairs;
    }
  }

  predicate AllMimes(mimes: seq<Bytes>) {
    forall i :: 0 <= i < |mimes| ==> ValidMime(mimes[i])
  }

  lemma BarePlain(mime: Bytes, n: nat)
    requires ValidMime(mime)
    ensures Plain((Bare(mime), n))
  {
    hide ValidMime, TypedAs, Bare, Printable;
    ValidMimeExact(mime);
    var kind: Bytes, sub: Bytes, ps: seq<Parameter>, tail: Bytes :| TypedAs(mime, kind, sub, ps, tail);
    BareOfTyped(mime, kind, sub, ps, tail);
  }

  lemma {:induction false} FoldPlain(mimes: seq<Bytes>, articles: seq<Article>, n: nat)
    requires AllMimes(mimes) && n <= |mimes|
    ensures forall i :: 0 <= i < |Fold(mimes, articles, n)| ==> Plain(Fold(mimes, articles, n)[i])
  {
    hide Bare, Tally, ValidMime;
    if n > 0 {
      FoldPlain(mimes, articles, n - 1);
      BarePlain(mimes[n - 1], 0);
    }
  }

  /** The counter of accepted types reads back as its counts. */
  lemma CounterReads(mimes: seq<Bytes>, articles: seq<Article>)
    ensures AllMimes(mimes) ==> ReadCounter(CounterText(mimes, articles)) == Some(Fold(mimes, articles, |mimes|))
  {
    hide AllMimes, Fold, ReadCounter, Render, Plain;
    if AllMimes(mimes) {
      FoldPlain(mimes, articles, |mimes|);
      RenderReads(Fold(mimes, articles, |mimes|));
    }
  }

  method CountArticles(mimes: seq<Bytes>, articles: seq<Article>) returns (tally: array<nat>)
    ensures tally.Length == |mimes| && forall i :: 0 <= i < |mimes| ==> tally[i] == Tally(articles, i)
  {
    tally := new nat[|mimes|](_ => 0);
    for k := 0 to |articles|
      invariant forall i :: 0 <= i < |mimes| ==> tally[i] == Tally(articles[..k], i)
    {
      assert articles[..k + 1][..k] == articles[..k];
      var (ns, mime) := articles[k];
      if ns == NS_CONTENT && mime < |mimes| {
        tally[mime] := tally[mime] + 1;
      }
    }
    assert articles[..|articles|] == articles;
  }

  /** Adds to the first pair with the key, or appends one. */
  method AddTo(counts: seq<Count>, key: Bytes, n: nat) returns (out: seq<Count>)
    ensures out == Add(counts, key, n)
  {
    if n == 0 {
      return counts;
    }
    var k := 0;
    while k < |counts| && counts[k].0 != key
      invariant 0 <= k <= |counts|
      invariant forall j :: 0 <= j < k ==> counts[j].0 != key
    {
      k := k + 1;
    }
    FirstFound(counts, key, k);
    out := if k < |counts| then counts[k := (key, counts[k].1 + n)] else counts + [(key, n)];
  }

  /** Fills an array of counts, folds it, and joins the pairs. */
  method BuildCounter(mimes: seq<Bytes>, articles: seq<Article>) returns (out: Bytes)
    ensures out == CounterText(mimes, articles)
    ensures AllMimes(mimes) ==> ReadCounter(out) == Some(Fold(mimes, articles, |mimes|))
  {
    CounterReads(mimes, articles);
    hide Bare, Add, Tally, AllMimes, ReadCounter, Decimal;
    var tally := CountArticles(mimes, articles);
    var counts: seq<Count> := [];
    for i := 0 to |mimes|
      invariant counts == Fold(mimes, articles, i)
      invariant forall j :: 0 <= j < |mimes| ==> tally[j] == Tally(articles, j)
    {
      counts := AddTo(counts, Bare(mimes[i]), tally[i]);
    }
    out := [];
    for i := 0 to |counts|
      invariant out == Render(counts, i)
    {
      if i > 0 {
        out := out + [59];
      }
      out := out + Pair(counts[i]);
    }
  }

  lemma {:induction false} FirstFound(counts: seq<Count>, key: Bytes, k: nat)
    requires k <= |counts| && (forall j :: 0 <= j < k ==> counts[j].0 != key) && (k < |counts| ==> counts[k].0 == key)
    ensures Find(counts, key) == if k < |counts| then Some(k) else None
  {
    if counts != [] {
      var front := counts[..|counts| - 1];
      if k < |front| {
        FirstFound(front, key, k);
      } else {
        FirstFound(front, key, |front|);
      }
    }
  }

  // ---- What the counts mean ----

  /** Content articles of the first `n` types with media type `key`. */
  function Total(mimes: seq<Bytes>, articles: seq<Article>, n: nat, key: Bytes): nat
    requires n <= |mimes|
  {
    if n == 0 then 0
    else Total(mimes, articles, n - 1, key) + (if Bare(mimes[n - 1]) == key then Tally(articles, n - 1) else 0)
  }

  ghost predicate Counted(mimes: seq<Bytes>, articles: seq<Article>, n: nat, c: Count)
    requires n <= |mimes|
  {
    c.1 > 0 && c.1 == Total(mimes, articles, n, c.0)
  }

  ghost predicate Covered(mimes: seq<Bytes>, articles: seq<Article>, n: nat, counts: seq<Count>, key: Bytes)
    requires n <= |mimes|
  {
    Total(mimes, articles, n, key) > 0 ==> Find(counts, key).Some?
  }

  ghost predicate DistinctTypes(counts: seq<Count>) {
    forall i, j :: 0 <= i < j < |counts| ==> counts[i].0 != counts[j].0
  }

  ghost predicate Exact(mimes: seq<Bytes>, articles: seq<Article>, n: nat, counts: seq<Count>)
    requires n <= |mimes|
  {
    && DistinctTypes(counts)
    && (forall i :: 0 <= i < |counts| ==> Counted(mimes, articles, n, counts[i]))
    && (forall key :: Covered(mimes, articles, n, counts, key))
  }

  lemma {:induction false} FoundAt(counts: seq<Count>, i: nat)
    requires i < |counts|
    ensures Find(counts, counts[i].0).Some?
  {
    if i < |counts| - 1 {
      FoundAt(counts[..|counts| - 1], i);
    }
  }

  lemma AddKeeps(counts: seq<Count>, key: Bytes, n: nat)
    ensures |counts| <= |Add(counts, key, n)| && forall i :: 0 <= i < |counts| ==> Add(counts, key, n)[i].0 == counts[i].0
    ensures forall k :: Find(counts, k).Some? || (k == key && n > 0) ==> Find(Add(counts, key, n), k).Some?
  {
    var after := Add(counts, key, n);
    assert n > 0 && Find(counts, key).None? ==> after[|counts|].0 == key;
    forall k | Find(counts, k).Some? || (k == key && n > 0)
      ensures Find(after, k).Some?
    {
      var i := if Find(counts, k).Some? then Find(counts, k).value else |counts|;
      assert after[i].0 == k;
      FoundAt(after, i);
    }
  }

  lemma AddCounts(counts: seq<Count>, key: Bytes, n: nat)
    requires DistinctTypes(counts)
    ensures DistinctTypes(Add(counts, key, n))
    ensures forall i :: 0 <= i < |Add(counts, key, n)| ==>
              Add(counts, key, n)[i].1 == (if i < |counts| then counts[i].1 else 0)
                                          + (if Add(counts, key, n)[i].0 == key then n else 0)
    ensures forall i :: |counts| <= i < |Add(counts, key, n)| ==>
              Add(counts, key, n)[i].0 == key && n > 0 && Find(counts, key) == None
  {
  }

  lemma CountStep(mimes: seq<Bytes>, articles: seq<Article>, n: nat, before: seq<Count>, i: nat)
    requires 0 < n <= |mimes| && Exact(mimes, articles, n - 1, before)
    requires i < |Add(before, Bare(mimes[n - 1]), Tally(articles, n - 1))|
    ensures Counted(mimes, articles, n, Add(before, Bare(mimes[n - 1]), Tally(articles, n - 1))[i])
  {
    var key, more := Bare(mimes[n - 1]), Tally(articles, n - 1);
    AddCounts(before, key, more);
    AddKeeps(before, key, more);
    hide Bare, Tally, Find, Add;
    if i < |before| {
      assert Counted(mimes, articles, n - 1, before[i]);
    } else {
      assert Covered(mimes, articles, n - 1, before, key);
    }
  }

  lemma CoverStep(mimes: seq<Bytes>, articles: seq<Article>, n: nat, before: seq<Count>, k: Bytes)
    requires 0 < n <= |mimes| && Exact(mimes, articles, n - 1, before)
    ensures Covered(mimes, articles, n, Add(before, Bare(mimes[n - 1]), Tally(articles, n - 1)), k)
  {
    AddKeeps(before, Bare(mimes[n - 1]), Tally(articles, n - 1));
    hide Bare, Tally, Find, Add;
    assert Covered(mimes, articles, n - 1, before, k);
  }

  /** Every media type in use appears once, with the number of content articles of that type. */
  lemma {:induction false} FoldExact(mimes: seq<Bytes>, articles: seq<Article>, n: nat)
    requires n <= |mimes|
    ensures Exact(mimes, articles, n, Fold(mimes, articles, n))
  {
    if n > 0 {
      FoldExact(mimes, articles, n - 1);
      var before := Fold(mimes, articles, n - 1);
      AddCounts(before, Bare(mimes[n - 1]), Tally(articles, n - 1));
      hide Bare, Tally, Find, Add, Counted, Covered;
      var after := Fold(mimes, articles, n);
      forall i | 0 <= i < |after|
        ensures Counted(mimes, articles, n, after[i])
      {
        CountStep(mimes, articles, n, before, i);
      }
      forall k
        ensures Covered(mimes, articles, n, after, k)
      {
        CoverStep(mimes, articles, n, before, k);
      }
    }
  }
}
