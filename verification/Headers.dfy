/** The fixed header and the mime-type list: encoders of the writer, parsers of the reader. */
module Headers {
  import opened Outcome
  import opened Bytes
  import opened Text

  const MAGIC: nat := 0x44D495A
  const HEADER_SIZE: nat := 80
  const NO_MAIN_PAGE: nat := U32_MAX

  datatype Header = Header(
    major: nat, minor: nat, uuid: Bytes,
    entryCount: nat, clusterCount: nat,
    urlPtrPos: nat, titlePtrPos: nat, clusterPtrPos: nat, mimeListPos: nat,
    mainPage: nat, layoutPage: nat, checksumPos: nat)
  {
    predicate UsesNewNamespaces() {
      major > 6 || (major == 6 && minor >= 1)
    }

    predicate HasChecksum() {
      checksumPos != 0
    }

    /** Every field fits its width. */
    predicate Fits() {
      && major < U16_LIMIT && minor < U16_LIMIT && |uuid| == 16
      && entryCount < U32_LIMIT && clusterCount < U32_LIMIT && mainPage < U32_LIMIT && layoutPage < U32_LIMIT
      && urlPtrPos < U64_LIMIT && titlePtrPos < U64_LIMIT && clusterPtrPos < U64_LIMIT
      && mimeListPos < U64_LIMIT && checksumPos < U64_LIMIT
    }
  }

  function EncodeHead(h: Header): (s: Bytes)
    requires |h.uuid| == 16
    ensures |s| == 32
  {
    Le(MAGIC, 4) + (Le(h.major, 2) + (Le(h.minor, 2) + (h.uuid + (Le(h.entryCount, 4) + Le(h.clusterCount, 4)))))
  }

  function EncodeTail(h: Header): (s: Bytes)
    ensures |s| == 48
  {
    Le(h.urlPtrPos, 8) + (Le(h.titlePtrPos, 8) + (Le(h.clusterPtrPos, 8) + (Le(h.mimeListPos, 8)
    + (Le(h.mainPage, 4) + (Le(h.layoutPage, 4) + Le(h.checksumPos, 8))))))
  }

  function EncodeHeader(h: Header): (s: Bytes)
    requires |h.uuid| == 16
    ensures |s| == HEADER_SIZE
  {
    EncodeHead(h) + EncodeTail(h)
  }

  function ParseHeader(buf: Bytes): Result<Header> {
    if |buf| < HEADER_SIZE then Err(Truncated)
    else
      var magic :- UintAt(buf, 0, 4);
      if magic != MAGIC then Err(BadMagic)
      else
        var major :- UintAt(buf, 4, 2);
        var minor :- UintAt(buf, 6, 2);
        if major != 5 && major != 6 then Err(UnsupportedVersion)
        else
          var entryCount :- UintAt(buf, 24, 4);
          var clusterCount :- UintAt(buf, 28, 4);
          var urlPtrPos :- UintAt(buf, 32, 8);
          var titlePtrPos :- UintAt(buf, 40, 8);
          var clusterPtrPos :- UintAt(buf, 48, 8);
          var mimeListPos :- UintAt(buf, 56, 8);
          var mainPage :- UintAt(buf, 64, 4);
          var layoutPage :- UintAt(buf, 68, 4);
          var checksumPos :- UintAt(buf, 72, 8);
          Ok(Header(major, minor, buf[8..24], entryCount, clusterCount, urlPtrPos, titlePtrPos, clusterPtrPos,
                    mimeListPos, mainPage, layoutPage, checksumPos))
  }

  lemma HeadRoundTrip(buf: Bytes, h: Header)
    requires h.Fits() && At(buf, 0, EncodeHead(h))
    ensures UintAt(buf, 0, 4) == Ok(MAGIC) && UintAt(buf, 4, 2) == Ok(h.major) && UintAt(buf, 6, 2) == Ok(h.minor)
    ensures buf[8..24] == h.uuid
    ensures UintAt(buf, 24, 4) == Ok(h.entryCount) && UintAt(buf, 28, 4) == Ok(h.clusterCount)
  {
    hide Le, UnLe, Pow256, UintAt;
    Pow256Values();
    var e := Le(h.entryCount, 4) + Le(h.clusterCount, 4);
    AtSplit(buf, 0, Le(MAGIC, 4), Le(h.major, 2) + (Le(h.minor, 2) + (h.uuid + e)));
    AtSplit(buf, 4, Le(h.major, 2), Le(h.minor, 2) + (h.uuid + e));
    AtSplit(buf, 6, Le(h.minor, 2), h.uuid + e);
    AtSplit(buf, 8, h.uuid, e);
    AtSplit(buf, 24, Le(h.entryCount, 4), Le(h.clusterCount, 4));
    UintAtLe(buf, 0, MAGIC, 4);
    UintAtLe(buf, 4, h.major, 2);
    UintAtLe(buf, 6, h.minor, 2);
    UintAtLe(buf, 24, h.entryCount, 4);
    UintAtLe(buf, 28, h.clusterCount, 4);
  }

  lemma TailRoundTrip(buf: Bytes, h: Header)
    requires h.Fits() && At(buf, 32, EncodeTail(h))
    ensures UintAt(buf, 32, 8) == Ok(h.urlPtrPos) && UintAt(buf, 40, 8) == Ok(h.titlePtrPos)
    ensures UintAt(buf, 48, 8) == Ok(h.clusterPtrPos) && UintAt(buf, 56, 8) == Ok(h.mimeListPos)
    ensures UintAt(buf, 64, 4) == Ok(h.mainPage) && UintAt(buf, 68, 4) == Ok(h.layoutPage)
    ensures UintAt(buf, 72, 8) == Ok(h.checksumPos)
  {
    hide Le, UnLe, Pow256, UintAt;
    Pow256Values();
    var pages := Le(h.mainPage, 4) + (Le(h.layoutPage, 4) + Le(h.checksumPos, 8));
    AtSplit(buf, 32, Le(h.urlPtrPos, 8), Le(h.titlePtrPos, 8) + (Le(h.clusterPtrPos, 8) + (Le(h.mimeListPos, 8) + pages)));
    AtSplit(buf, 40, Le(h.titlePtrPos, 8), Le(h.clusterPtrPos, 8) + (Le(h.mimeListPos, 8) + pages));
    AtSplit(buf, 48, Le(h.clusterPtrPos, 8), Le(h.mimeListPos, 8) + pages);
    AtSplit(buf, 56, Le(h.mimeListPos, 8), pages);
    AtSplit(buf, 64, Le(h.mainPage, 4), Le(h.layoutPage, 4) + Le(h.checksumPos, 8));
    AtSplit(buf, 68, Le(h.layoutPage, 4), Le(h.checksumPos, 8));
    UintAtLe(buf, 32, h.urlPtrPos, 8);
    UintAtLe(buf, 40, h.titlePtrPos, 8);
    UintAtLe(buf, 48, h.clusterPtrPos, 8);
    UintAtLe(buf, 56, h.mimeListPos, 8);
    UintAtLe(buf, 64, h.mainPage, 4);
    UintAtLe(buf, 68, h.layoutPage, 4);
    UintAtLe(buf, 72, h.checksumPos, 8);
  }

  /** A header of a supported version parses back field by field. */
  lemma HeaderRoundTrip(buf: Bytes, h: Header)
    requires h.Fits() && At(buf, 0, EncodeHeader(h))
    ensures ParseHeader(buf) == if h.major == 5 || h.major == 6 then Ok(h) else Err(UnsupportedVersion)
  {
    hide Le, UnLe, Pow256, UintAt, EncodeHead, EncodeTail;
    AtSplit(buf, 0, EncodeHead(h), EncodeTail(h));
    HeadRoundTrip(buf, h);
    TailRoundTrip(buf, h);
  }

  // ---- Mime-type list ----

  function EncodeMimes(mimes: seq<Bytes>): Bytes {
    if mimes == [] then [0] else mimes[0] + [0] + EncodeMimes(mimes[1..])
  }

  method EncodeMimeList(mimes: seq<Bytes>) returns (out: Bytes)
    ensures out == EncodeMimes(mimes)
  {
    out := [];
    for i := 0 to |mimes|
      invariant out + EncodeMimes(mimes[i..]) == EncodeMimes(mimes)
    {
      assert mimes[i..][1..] == mimes[i + 1..];
      out := out + mimes[i];
      out := out + [0];
    }
    out := out + [0];
  }

  function ParseMimes(buf: Bytes, off: nat): Result<(seq<Bytes>, nat)>
    decreases |buf| - off
  {
    var s :- CStrAt(buf, off);
    if s.0 == [] then Ok(([], s.1))
    else
      Prepend([s.0], ParseMimes(buf, s.1))
  }

  function Prepend(list: seq<Bytes>, r: Result<(seq<Bytes>, nat)>): Result<(seq<Bytes>, nat)> {
    match r
    case Ok(v) => Ok((list + v.0, v.1))
    case Err(e) => Err(e)
  }

  lemma PrependTwice(a: seq<Bytes>, b: seq<Bytes>, r: Result<(seq<Bytes>, nat)>)
    ensures Prepend([], r) == r
    ensures r.Err? ==> Prepend(a, r) == r
    ensures Prepend(a, Prepend(b, r)) == Prepend(a + b, r)
  {
    if r.Ok? {
      assert [] + r.value.0 == r.value.0;
      assert a + (b + r.value.0) == a + b + r.value.0;
    }
  }

  lemma PrependEnd(list: seq<Bytes>, end: nat)
    ensures Prepend(list, Ok(([], end))) == Ok((list, end))
  {
    assert list + [] == list;
  }

  method ParseMimeList(buf: Bytes, start: nat) returns (r: Result<(seq<Bytes>, nat)>)
    ensures r == ParseMimes(buf, start)
  {
    var off := start;
    var list: seq<Bytes> := [];
    hide CStrAt, Prepend;
    PrependTwice([], [], ParseMimes(buf, start));
    while true
      invariant ParseMimes(buf, start) == Prepend(list, ParseMimes(buf, off))
      decreases |buf| - off
    {
      var s := CStrAt(buf, off);
      PrependTwice(list, [], ParseMimes(buf, off));
      if s.Err? {
        return Err(s.error);
      }
      PrependTwice(list, [s.value.0], ParseMimes(buf, s.value.1));
      if s.value.0 == [] {
        PrependEnd(list, s.value.1);
        return Ok((list, s.value.1));
      }
      list := list + [s.value.0];
      off := s.value.1;
    }
  }

  /** A list of non-empty types parses back, and its end is the end of its encoding. */
  lemma {:induction false} MimesRoundTrip(buf: Bytes, off: nat, mimes: seq<Bytes>)
    requires At(buf, off, EncodeMimes(mimes))
    requires forall i :: 0 <= i < |mimes| ==> mimes[i] != [] && Storable(mimes[i])
    ensures ParseMimes(buf, off) == Ok((mimes, off + |EncodeMimes(mimes)|))
    decreases |mimes|
  {
    hide CStrAt, Storable;
    if mimes == [] {
      EmptyStorable();
      assert [] + [0] == EncodeMimes(mimes);
      CStrAtStored(buf, off, []);
    } else {
      AtSplit(buf, off, mimes[0] + [0], EncodeMimes(mimes[1..]));
      CStrAtStored(buf, off, mimes[0]);
      MimesRoundTrip(buf, off + |mimes[0]| + 1, mimes[1..]);
      assert [mimes[0]] + mimes[1..] == mimes;
    }
  }

  lemma EmptyStorable()
    ensures Storable([])
  {
  }
}
