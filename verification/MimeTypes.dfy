/** Media types: validation, and the interned list that must fit its reserved region. */
module MimeTypes {
  import opened Outcome
  import opened Bytes
  import opened Text
  import opened Headers
  import opened Dirents
  import opened Counting

  const MIME_LIST_RESERVE: nat := 0x1_0000

  // ---- Validation ----

  /** A letter, a digit or one of !#$%&'*+-.^_`|~ */
  predicate TokenByte(b: byte) {
    b == 33 || 35 <= b <= 39 || 42 <= b <= 43 || 45 <= b <= 46 || 48 <= b <= 57 || 65 <= b <= 90 || 94 <= b <= 122
    || b == 124 || b == 126
  }

  /** The rest behind a leading token, None when there is no token. */
  function AfterToken(s: Bytes): (r: Option<Bytes>)
    ensures r.Some? ==> |r.value| < |s|
  {
    if s == [] || !TokenByte(s[0]) then None
    else
      match AfterToken(s[1..])
      case None => Some(s[1..])
      case Some(rest) => Some(rest)
  }

  predicate IsSpace(b: byte) {
    b == 32 || b == 9 || b == 10 || b == 12 || b == 13
  }

  function TrimStart(s: Bytes): (r: Bytes)
    ensures |r| <= |s|
  {
    if s != [] && IsSpace(s[0]) then TrimStart(s[1..]) else s
  }

  /** The rest behind the quote that closes a quoted string, None when it is never closed. */
  function AfterQuoted(s: Bytes): (r: Option<Bytes>)
    ensures r.Some? ==> |r.value| < |s|
  {
    if s == [] then None
    else if s[0] == 34 then Some(s[1..])
    else if s[0] == 92 then (if |s| >= 2 then AfterQuoted(s[2..]) else None)
    else AfterQuoted(s[1..])
  }

  /** The rest behind a token or a quoted string. */
  function AfterValue(s: Bytes): (r: Option<Bytes>)
    ensures r.Some? ==> |r.value| < |s|
  {
    if s != [] && s[0] == 34 then AfterQuoted(s[1..]) else AfterToken(s)
  }

  /** A sequence of `; name = value` parameters. */
  predicate Parameters(s: Bytes)
    decreases |s|
  {
    var rest := TrimStart(s);
    rest == []
    || (rest[0] == 59
        && match AfterToken(TrimStart(rest[1..]))
           case None => false
           case Some(afterName) =>
             var eq := TrimStart(afterName);
             eq != [] && eq[0] == 61
             && match AfterValue(TrimStart(eq[1..]))
                case None => false
                case Some(more) => Parameters(more))
  }

  predicate AsciiControl(b: byte) {
    b < 32 || b == 127
  }

  predicate Printable(s: Bytes) {
    forall i :: 0 <= i < |s| ==> s[i] < 128 && !AsciiControl(s[i])
  }

  /** A type, a slash, a subtype, then parameters. */
  predicate Typed(s: Bytes) {
    match AfterToken(s)
    case None => false
    case Some(rest) =>
      rest != [] && rest[0] == 47
      && match AfterToken(rest[1..])
         case None => false
         case Some(more) => Parameters(more)
  }

  predicate ValidMime(mime: Bytes) {
    |mime| <= MIME_LIST_RESERVE - 2 && Printable(mime) && Typed(mime)
  }

  /** An accepted type can be stored as a non-empty NUL-terminated string. */
  lemma ValidMimeStorable(mime: Bytes)
    requires ValidMime(mime)
    ensures mime != [] && Storable(mime)
  {
    AsciiIsUtf8(mime);
  }

  predicate Token(s: Bytes) {
    s != [] && forall i :: 0 <= i < |s| ==> TokenByte(s[i])
  }

  lemma {:induction false} TokenRun(a: Bytes, b: Bytes)
    requires Token(a) && (b == [] || !TokenByte(b[0]))
    ensures AfterToken(a + b) == Some(b)
    decreases |a|
  {
    assert (a + b)[1..] == a[1..] + b;
    if |a| == 1 {
      assert a[1..] + b == b;
    } else {
      TokenRun(a[1..], b);
    }
  }

  lemma TokenPrintable(s: Bytes)
    requires Token(s)
    ensures Printable(s)
  {
  }

  lemma PrintableConcat(a: Bytes, b: Bytes)
    requires Printable(a) && Printable(b)
    ensures Printable(a + b)
  {
  }

  lemma ParameterAccepted(name: Bytes, value: Bytes)
    requires Token(name) && Token(value)
    ensures Parameters([59] + (name + ([61] + value)))
  {
    var pair := name + ([61] + value);
    TokenRun(name, [61] + value);
    TokenRun(value, []);
    assert value + [] == value && ([61] + value)[1..] == value && ([59] + pair)[1..] == pair;
    assert TrimStart(pair) == pair && TrimStart(value) == value && TrimStart([61] + value) == [61] + value;
    assert Parameters([]);
    hide AfterToken, TrimStart;
    assert TrimStart([59] + pair) == [59] + pair by {
      TrimNothing([59] + pair);
    }
    assert TrimStart([]) == [] by {
      TrimNothing([]);
    }
  }

  lemma TrimNothing(s: Bytes)
    requires s == [] || !IsSpace(s[0])
    ensures TrimStart(s) == s
  {
  }

  lemma TypedAccepted(kind: Bytes, sub: Bytes, parameters: Bytes)
    requires Token(kind) && Token(sub) && Parameters(parameters)
    requires parameters == [] || !TokenByte(parameters[0])
    ensures Typed(kind + ([47] + (sub + parameters)))
  {
    var rest := [47] + (sub + parameters);
    TokenRun(kind, rest);
    TokenRun(sub, parameters);
    hide Parameters, AfterToken, Token;
    assert rest[1..] == sub + parameters;
  }

  /** A type without parameters, or with what is accepted as parameters. */
  lemma TypeAccepted(kind: Bytes, sub: Bytes, parameters: Bytes)
    requires Token(kind) && Token(sub) && Parameters(parameters) && Printable(parameters)
    requires parameters == [] || !TokenByte(parameters[0])
    requires |kind| + 1 + |sub| + |parameters| <= MIME_LIST_RESERVE - 2
    ensures ValidMime(kind + ([47] + (sub + parameters)))
  {
    TypedAccepted(kind, sub, parameters);
    TokenPrintable(kind);
    TokenPrintable(sub);
    PrintableConcat(sub, parameters);
    PrintableConcat([47], sub + parameters);
    PrintableConcat(kind, [47] + (sub + parameters));
    hide Typed, Printable, Token, Parameters;
  }

  /** The longest leading token. */
  lemma {:induction false} TokenSplit(s: Bytes) returns (token: Bytes)
    requires AfterToken(s).Some?
    ensures var rest := AfterToken(s).value;
      Token(token) && s == token + rest && (rest == [] || !TokenByte(rest[0]))
    decreases |s|
  {
    if |s| > 1 && TokenByte(s[1]) {
      var more := TokenSplit(s[1..]);
      token := [s[0]] + more;
    } else {
      token := s[..1];
    }
  }

  // ---- The grammar of parameters ----

  predicate Blank(s: Bytes) {
    forall i :: 0 <= i < |s| ==> IsSpace(s[i])
  }

  /** What stands between quotes: a backslash takes the next byte with it. */
  predicate QuotedBody(s: Bytes) {
    s == []
    || (s[0] == 92 && |s| >= 2 && QuotedBody(s[2..]))
    || (s[0] != 92 && s[0] != 34 && QuotedBody(s[1..]))
  }

  datatype Value = Word(token: Bytes) | Quote(body: Bytes) {
    function Text(): Bytes {
      match this
      case Word(t) => t
      case Quote(b) => [34] + b + [34]
    }

    predicate Valid() {
      match this
      case Word(t) => Token(t)
      case Quote(b) => QuotedBody(b)
    }
  }

  /** `; name = value`, with space wherever it may stand. */
  datatype Parameter = Parameter(s0: Bytes, s1: Bytes, name: Bytes, s2: Bytes, s3: Bytes, value: Value) {
    function Text(): Bytes {
      s0 + ([59] + (s1 + (name + (s2 + ([61] + (s3 + value.Text()))))))
    }

    predicate Valid() {
      Blank(s0) && Blank(s1) && Token(name) && Blank(s2) && Blank(s3) && value.Valid()
    }
  }

  function ParametersText(ps: seq<Parameter>, tail: Bytes): Bytes {
    if ps == [] then tail else ps[0].Text() + ParametersText(ps[1..], tail)
  }

  predicate AllValid(ps: seq<Parameter>) {
    forall i :: 0 <= i < |ps| ==> ps[i].Valid()
  }

  predicate Unspaced(s: Bytes) {
    s == [] || !IsSpace(s[0])
  }

  lemma {:induction false} TrimBlank(a: Bytes, b: Bytes)
    requires Blank(a) && Unspaced(b)
    ensures TrimStart(a + b) == b
  {
    if a == [] {
      assert a + b == b;
    } else {
      assert (a + b)[1..] == a[1..] + b;
      TrimBlank(a[1..], b);
    }
  }

  lemma {:induction false} TrimSplit(s: Bytes) returns (a: Bytes)
    ensures Blank(a) && s == a + TrimStart(s) && Unspaced(TrimStart(s))
  {
    if s != [] && IsSpace(s[0]) {
      var more := TrimSplit(s[1..]);
      a := [s[0]] + more;
    } else {
      a := [];
    }
  }

  lemma {:induction false} QuotedRun(b: Bytes, rest: Bytes)
    requires QuotedBody(b)
    ensures AfterQuoted(b + ([34] + rest)) == Some(rest)
    decreases |b|
  {
    var s := b + ([34] + rest);
    if b == [] {
      assert s[1..] == rest;
    } else if b[0] == 92 {
      assert s[2..] == b[2..] + ([34] + rest);
      QuotedRun(b[2..], rest);
    } else {
      assert s[1..] == b[1..] + ([34] + rest);
      QuotedRun(b[1..], rest);
    }
  }

  lemma {:induction false} QuotedSplit(s: Bytes) returns (b: Bytes)
    requires AfterQuoted(s).Some?
    ensures QuotedBody(b) && s == b + ([34] + AfterQuoted(s).value)
    decreases |s|
  {
    if s[0] == 34 {
      b := [];
    } else if s[0] == 92 {
      var more := QuotedSplit(s[2..]);
      b := s[..2] + more;
      assert b[2..] == more;
    } else {
      var more := QuotedSplit(s[1..]);
      b := [s[0]] + more;
      assert b[1..] == more;
    }
  }

  lemma ValueRun(v: Value, rest: Bytes)
    requires v.Valid() && (rest == [] || !TokenByte(rest[0]))
    ensures AfterValue(v.Text() + rest) == Some(rest) && v.Text() != [] && Unspaced(v.Text() + rest)
  {
    match v {
      case Word(t) => TokenRun(t, rest);
      case Quote(b) =>
        QuotedRun(b, rest);
        assert (v.Text() + rest)[1..] == b + ([34] + rest);
    }
  }

  lemma ValueSplit(s: Bytes) returns (v: Value)
    requires AfterValue(s).Some?
    ensures v.Valid() && s == v.Text() + AfterValue(s).value
  {
    if s != [] && s[0] == 34 {
      var b := QuotedSplit(s[1..]);
      v := Quote(b);
      assert s == [34] + s[1..];
    } else {
      var t := TokenSplit(s);
      v := Word(t);
    }
  }

  /** One parameter is read off, and what is behind it decides. */
  lemma OneParameter(p: Parameter, rest: Bytes)
    requires p.Valid() && (rest == [] || !TokenByte(rest[0]))
    ensures Parameters(p.Text() + rest) <==> Parameters(rest)
  {
    hide AfterToken, AfterValue, TrimStart, Token, Blank, IsSpace;
    var v := p.value.Text() + rest;
    var eq := [61] + (p.s3 + v);
    var name := p.name + (p.s2 + eq);
    ValueRun(p.value, rest);
    Opening(p.name);
    Marks();
    assert p.Text() + rest == p.s0 + ([59] + (p.s1 + name)) by {
      Regroup(p, rest);
    }
    TrimBlank(p.s0, [59] + (p.s1 + name));
    assert ([59] + (p.s1 + name))[1..] == p.s1 + name;
    TrimBlank(p.s1, name);
    BlankThen(p.s2, eq);
    TokenRun(p.name, p.s2 + eq);
    TrimBlank(p.s2, eq);
    assert eq[1..] == p.s3 + v;
    TrimBlank(p.s3, v);
    ParametersStep(p.Text() + rest);
  }

  lemma Regroup(p: Parameter, rest: Bytes)
    ensures p.Text() + rest == p.s0 + ([59] + (p.s1 + (p.name + (p.s2 + ([61] + (p.s3 + (p.value.Text() + rest)))))))
  {
    var t := p.value.Text();
    var a, b, c, d, e := p.s3 + t, [61] + (p.s3 + t), p.s2 + ([61] + (p.s3 + t)), p.name + (p.s2 + ([61] + (p.s3 + t))),
      p.s1 + (p.name + (p.s2 + ([61] + (p.s3 + t))));
    assert a + rest == p.s3 + (t + rest);
    assert b + rest == [61] + (a + rest);
    assert c + rest == p.s2 + (b + rest);
    assert d + rest == p.name + (c + rest);
    assert e + rest == p.s1 + (d + rest);
    assert p.Text() + rest == p.s0 + ([59] + (e + rest));
  }

  lemma Opening(name: Bytes)
    requires Token(name)
    ensures name != [] && !IsSpace(name[0])
  {
    assert TokenByte(name[0]);
  }

  lemma Marks()
    ensures !IsSpace(59) && !IsSpace(61) && !TokenByte(59) && !TokenByte(61)
  {
  }

  lemma BlankThen(a: Bytes, b: Bytes)
    requires Blank(a) && (b == [] || !TokenByte(b[0]))
    ensures a + b == [] || !TokenByte((a + b)[0])
  {
    assert a != [] ==> IsSpace(a[0]);
  }

  lemma ParametersStep(s: Bytes)
    ensures var rest := TrimStart(s);
      rest != [] && rest[0] == 59 && AfterToken(TrimStart(rest[1..])).Some? ==>
        var eq := TrimStart(AfterToken(TrimStart(rest[1..])).value);
        eq != [] && eq[0] == 61 && AfterValue(TrimStart(eq[1..])).Some? ==>
          (Parameters(s) <==> Parameters(AfterValue(TrimStart(eq[1..])).value))
  {
    hide AfterToken, TrimStart, AfterQuoted;
  }

  lemma {:induction false} Behind(ps: seq<Parameter>, tail: Bytes)
    requires AllValid(ps) && Blank(tail)
    ensures ParametersText(ps, tail) == [] || !TokenByte(ParametersText(ps, tail)[0])
  {
    if ps == [] {
      BlankThen(tail, []);
      assert tail + [] == tail;
    } else {
      var p := ps[0];
      assert p.Valid();
      var rest := ParametersText(ps[1..], tail);
      Regroup(p, rest);
      BlankThen(p.s0, [59] + (p.s1 + (p.name + (p.s2 + ([61] + (p.s3 + (p.value.Text() + rest)))))));
    }
  }

  lemma {:induction false} WrittenAccepted(ps: seq<Parameter>, tail: Bytes)
    requires AllValid(ps) && Blank(tail)
    ensures Parameters(ParametersText(ps, tail))
  {
    hide Parameters;
    if ps == [] {
      BlankAccepted(tail);
    } else {
      WrittenAccepted(ps[1..], tail);
      Behind(ps[1..], tail);
      OneParameter(ps[0], ParametersText(ps[1..], tail));
    }
  }

  lemma BlankAccepted(tail: Bytes)
    requires Blank(tail)
    ensures Parameters(tail)
  {
    TrimBlank(tail, []);
    assert tail + [] == tail;
  }

  lemma {:induction false} AcceptedWritten(s: Bytes) returns (ps: seq<Parameter>, tail: Bytes)
    requires Parameters(s)
    ensures AllValid(ps) && Blank(tail) && s == ParametersText(ps, tail)
    decreases |s|
  {
    hide AfterToken, TrimStart, AfterQuoted, Token, Blank;
    var s0 := TrimSplit(s);
    var rest := TrimStart(s);
    if rest == [] {
      ps, tail := [], s;
      assert s0 + [] == s0;
    } else {
      var s1 := TrimSplit(rest[1..]);
      var name := TokenSplit(TrimStart(rest[1..]));
      var afterName := AfterToken(TrimStart(rest[1..])).value;
      var s2 := TrimSplit(afterName);
      var eq := TrimStart(afterName);
      var s3 := TrimSplit(eq[1..]);
      var v := ValueSplit(TrimStart(eq[1..]));
      var more := AfterValue(TrimStart(eq[1..])).value;
      var p := Parameter(s0, s1, name, s2, s3, v);
      assert rest == [59] + rest[1..] && eq == [61] + eq[1..];
      Regroup(p, more);
      assert s == p.Text() + more;
      var later, end := AcceptedWritten(more);
      ps, tail := [p] + later, end;
      assert ps[1..] == later;
    }
  }

  /** Accepted as parameters is exactly a run of `; name = value`, with space between the parts and behind. */
  lemma ParametersExact(s: Bytes)
    ensures Parameters(s) <==> exists ps, tail :: AllValid(ps) && Blank(tail) && s == ParametersText(ps, tail)
  {
    hide Parameters, AllValid, Blank, ParametersText;
    if Parameters(s) {
      var ps, tail := AcceptedWritten(s);
    }
    if ps, tail :| AllValid(ps) && Blank(tail) && s == ParametersText(ps, tail) {
      WrittenAccepted(ps, tail);
    }
  }

  ghost predicate IsTyped(mime: Bytes) {
    exists kind: Bytes, sub: Bytes, ps: seq<Parameter>, tail: Bytes :: TypedAs(mime, kind, sub, ps, tail)
  }

  ghost predicate TypedAs(mime: Bytes, kind: Bytes, sub: Bytes, ps: seq<Parameter>, tail: Bytes) {
    Token(kind) && Token(sub) && AllValid(ps) && Blank(tail) && mime == kind + ([47] + (sub + ParametersText(ps, tail)))
  }

  /** A printable string that fits the list is accepted exactly when it is `token/token` and parameters. */
  lemma ValidMimeExact(mime: Bytes)
    ensures ValidMime(mime) <==> |mime| <= MIME_LIST_RESERVE - 2 && Printable(mime) && IsTyped(mime)
  {
    if IsTyped(mime) {
      var kind: Bytes, sub: Bytes, ps: seq<Parameter>, tail: Bytes :| TypedAs(mime, kind, sub, ps, tail);
      hide Parameters, ParametersText, AllValid;
      Behind(ps, tail);
      WrittenAccepted(ps, tail);
      TypedAccepted(kind, sub, ParametersText(ps, tail));
    }
    if Typed(mime) {
      var rest := AfterToken(mime).value;
      var parameters := AfterToken(rest[1..]).value;
      var kind := TokenSplit(mime);
      var sub := TokenSplit(rest[1..]);
      var ps, tail := AcceptedWritten(parameters);
      hide Parameters, AfterToken, Token;
      assert rest == [47] + (sub + parameters);
      assert TypedAs(mime, kind, sub, ps, tail);
    }
  }

  const CHARSET_UTF8: Bytes := [59] + (Ascii("charset") + ([61] + Ascii("utf-8")))
  const TEXT_PLAIN_UTF8: Bytes := Ascii("text") + ([47] + (Ascii("plain") + CHARSET_UTF8))
  const IMAGE_PNG: Bytes := Ascii("image") + ([47] + (Ascii("png") + []))
  const ZIM_LISTING: Bytes := Ascii("application") + ([47] + (Ascii("octet-stream+zimlisting") + []))

  lemma OwnTokens()
    ensures Token(Ascii("text")) && Token(Ascii("plain")) && Token(Ascii("charset")) && Token(Ascii("utf-8"))
    ensures Token(Ascii("image")) && Token(Ascii("png"))
  {
  }

  lemma ListingTokens()
    ensures Token(Ascii("application")) && Token(Ascii("octet-stream+zimlisting"))
  {
  }

  /** The types the writer itself adds pass its own validation. */
  lemma OwnTypesValid()
    ensures ValidMime(TEXT_PLAIN_UTF8) && ValidMime(IMAGE_PNG) && ValidMime(ZIM_LISTING)
  {
    OwnTokens();
    ListingTokens();
    ParameterAccepted(Ascii("charset"), Ascii("utf-8"));
    assert Parameters([]) && Printable([]);
    assert Printable(CHARSET_UTF8) && CHARSET_UTF8[0] == 59 by {
      TokenPrintable(Ascii("charset"));
      TokenPrintable(Ascii("utf-8"));
    }
    hide ValidMime, Parameters, Token, Printable;
    TypeAccepted(Ascii("text"), Ascii("plain"), CHARSET_UTF8);
    TypeAccepted(Ascii("image"), Ascii("png"), []);
    TypeAccepted(Ascii("application"), Ascii("octet-stream+zimlisting"), []);
  }

  // ---- The interned list ----

  /** Bytes of the list without its terminator. */
  function ListLen(mimes: seq<Bytes>): nat {
    if mimes == [] then 0 else ListLen(mimes[..|mimes| - 1]) + |mimes[|mimes| - 1]| + 1
  }

  function Position(mimes: seq<Bytes>, mime: Bytes, n: nat): (r: Option<nat>)
    requires n <= |mimes|
    ensures r.Some? ==> r.value < n && mimes[r.value] == mime
    ensures r.None? ==> mime !in mimes[..n]
  {
    if n == 0 then None
    else if mimes[n - 1] == mime then Some(n - 1)
    else
      assert mimes[..n] == mimes[..n - 1] + [mimes[n - 1]];
      Position(mimes, mime, n - 1)
  }

  /** The list after interning `mime`, and its index there. */
  function Intern(mimes: seq<Bytes>, mime: Bytes): (r: Result<(seq<Bytes>, nat)>)
    ensures r.Ok? ==> r.value.1 < |r.value.0| && r.value.0[r.value.1] == mime && mimes <= r.value.0
    ensures r.Ok? && mime in mimes ==> r.value.0 == mimes
  {
    match Position(mimes, mime, |mimes|)
    case Some(i) => Ok((mimes, i))
    case None =>
      assert mimes[..|mimes|] == mimes;
      if |mimes| >= MIME_DELETED then Err(Io)
      else if ListLen(mimes) + |mime| + 2 > MIME_LIST_RESERVE then Err(InvalidInput)
      else Ok((mimes + [mime], |mimes|))
  }

  ghost predicate GoodList(mimes: seq<Bytes>) {
    && Distinct(mimes)
    && (forall i :: 0 <= i < |mimes| ==> ValidMime(mimes[i]))
    && |mimes| <= MIME_DELETED
    && ListLen(mimes) + 1 <= MIME_LIST_RESERVE
  }

  /** Interning keeps the list free of repetitions, below the reserved indices and inside its region. */
  lemma InternKeeps(mimes: seq<Bytes>, mime: Bytes)
    requires GoodList(mimes) && ValidMime(mime) && Intern(mimes, mime).Ok?
    ensures GoodList(Intern(mimes, mime).value.0) && Intern(mimes, mime).value.1 < MIME_DELETED
  {
    hide ValidMime;
    assert mimes[..|mimes|] == mimes;
    assert (mimes + [mime])[..|mimes|] == mimes;
  }

  /** The list after interning `wanted`, one after the other. */
  function InternAll(mimes: seq<Bytes>, wanted: seq<Bytes>): Result<seq<Bytes>>
    decreases |wanted|
  {
    if wanted == [] then Ok(mimes)
    else
      var first :- Intern(mimes, wanted[0]);
      InternAll(first.0, wanted[1..])
  }

  /** The wanted types that are not in the list, each at its first occurrence. */
  function Missing(mimes: seq<Bytes>, wanted: seq<Bytes>): seq<Bytes>
    decreases |wanted|
  {
    if wanted == [] then []
    else if wanted[0] in mimes then Missing(mimes, wanted[1..])
    else [wanted[0]] + Missing(mimes + [wanted[0]], wanted[1..])
  }

  /** The missing types leave the indices below the reserved ones and fit behind the list in its region. */
  predicate HasRoom(mimes: seq<Bytes>, wanted: seq<Bytes>) {
    var more := Missing(mimes, wanted);
    |mimes| + |more| <= MIME_DELETED && ListLen(mimes) + ListLen(more) + 1 <= MIME_LIST_RESERVE
  }

  lemma {:induction false} MissingExact(mimes: seq<Bytes>, wanted: seq<Bytes>)
    ensures Distinct(Missing(mimes, wanted))
    ensures forall m :: m in Missing(mimes, wanted) <==> m in wanted && m !in mimes
    decreases |wanted|
  {
    if wanted != [] {
      assert wanted == [wanted[0]] + wanted[1..];
      if wanted[0] in mimes {
        MissingExact(mimes, wanted[1..]);
      } else {
        var more := Missing(mimes + [wanted[0]], wanted[1..]);
        MissingExact(mimes + [wanted[0]], wanted[1..]);
        assert wanted[0] !in more;
        assert forall m :: m in [wanted[0]] + more <==> m == wanted[0] || m in more;
      }
    }
  }

  lemma {:induction false} ListLenConcat(a: seq<Bytes>, b: seq<Bytes>)
    ensures ListLen(a + b) == ListLen(a) + ListLen(b)
    decreases |b|
  {
    if b == [] {
      assert a + b == a;
    } else {
      assert (a + b)[..|a + b| - 1] == a + b[..|b| - 1];
      ListLenConcat(a, b[..|b| - 1]);
    }
  }

  lemma InternOne(mimes: seq<Bytes>, m: Bytes)
    ensures m in mimes ==> Intern(mimes, m).Ok? && Intern(mimes, m).value.0 == mimes
    ensures m !in mimes && Intern(mimes, m).Ok? ==> Intern(mimes, m).value.0 == mimes + [m]
    ensures m !in mimes ==> (Intern(mimes, m).Ok? <==> |mimes| < MIME_DELETED && ListLen(mimes) + |m| + 2 <= MIME_LIST_RESERVE)
  {
    assert mimes[..|mimes|] == mimes;
  }

  /** A list can take all of `wanted` exactly when it has room for the missing types, and then they are appended. */
  lemma {:induction false} InternAllExact(mimes: seq<Bytes>, wanted: seq<Bytes>)
    requires |mimes| <= MIME_DELETED && ListLen(mimes) + 1 <= MIME_LIST_RESERVE
    ensures InternAll(mimes, wanted).Ok? <==> HasRoom(mimes, wanted)
    ensures InternAll(mimes, wanted).Ok? ==> InternAll(mimes, wanted).value == mimes + Missing(mimes, wanted)
    decreases |wanted|
  {
    if wanted == [] {
      assert mimes + [] == mimes;
    } else {
      var m := wanted[0];
      InternOne(mimes, m);
      hide Intern;
      if m in mimes {
        InternAllExact(mimes, wanted[1..]);
      } else {
        var more := Missing(mimes + [m], wanted[1..]);
        ListLenConcat(mimes, [m]);
        ListLenConcat([m], more);
        assert ListLen([m]) == |m| + 1;
        assert mimes + ([m] + more) == mimes + [m] + more;
        hide ListLen;
        if Intern(mimes, m).Ok? {
          InternAllExact(mimes + [m], wanted[1..]);
        }
      }
    }
  }

  lemma {:induction false} InternConcat(mimes: seq<Bytes>, a: seq<Bytes>, b: seq<Bytes>)
    ensures InternAll(mimes, a + b) ==
            match InternAll(mimes, a)
            case Ok(after) => InternAll(after, b)
            case Err(e) => Err(e)
    decreases |a|
  {
    if a == [] {
      assert a + b == b;
    } else {
      assert (a + b)[1..] == a[1..] + b;
      if Intern(mimes, a[0]).Ok? {
        InternConcat(Intern(mimes, a[0]).value.0, a[1..], b);
      }
    }
  }

  lemma {:induction false} EncodeMimesLen(mimes: seq<Bytes>)
    ensures |EncodeMimes(mimes)| == ListLen(mimes) + 1
    decreases |mimes|
  {
    if mimes != [] {
      var front, last := mimes[..|mimes| - 1], mimes[|mimes| - 1];
      EncodeMimesLen(front);
      EncodeMimesAppend(front, last);
      assert front + [last] == mimes;
    }
  }

  lemma {:induction false} EncodeMimesAppend(mimes: seq<Bytes>, last: Bytes)
    ensures |EncodeMimes(mimes + [last])| == |EncodeMimes(mimes)| + |last| + 1
    decreases |mimes|
  {
    if mimes == [] {
      assert [last][1..] == [];
      assert mimes + [last] == [last];
    } else {
      assert (mimes + [last])[1..] == mimes[1..] + [last];
      EncodeMimesAppend(mimes[1..], last);
    }
  }

  /** The media type without its parameters. */
  function Bare(mime: Bytes): Bytes {
    Trim(UpToSemicolon(mime))
  }

  function UpToSemicolon(s: Bytes): Bytes {
    if s == [] || s[0] == 59 then [] else [s[0]] + UpToSemicolon(s[1..])
  }

  function TrimEnd(s: Bytes): Bytes {
    if s != [] && IsSpace(s[|s| - 1]) then TrimEnd(s[..|s| - 1]) else s
  }

  function Trim(s: Bytes): Bytes {
    TrimEnd(TrimStart(s))
  }

  // ---- What is left without parameters ----

  /** Neither begins nor ends with a space, and holds no semicolon. */
  predicate Tight(t: Bytes) {
    59 !in t && (t != [] ==> !IsSpace(t[0]) && !IsSpace(t[|t| - 1]))
  }

  /** `mime` is `t` with space around it, and perhaps a semicolon and more behind. */
  ghost predicate TypeIs(mime: Bytes, t: Bytes) {
    Tight(t) && exists a, b, rest :: Around(mime, a, t, b, rest)
  }

  ghost predicate Around(mime: Bytes, a: Bytes, t: Bytes, b: Bytes, rest: Bytes) {
    Blank(a) && Blank(b) && (mime == a + (t + b) || mime == a + (t + b) + [59] + rest)
  }

  lemma {:induction false} UpTo(s: Bytes, rest: Bytes)
    requires 59 !in s
    ensures UpToSemicolon(s + [59] + rest) == s && UpToSemicolon(s) == s
    decreases |s|
  {
    var whole := s + [59] + rest;
    if s == [] {
      assert whole[0] == 59;
    } else {
      assert s[0] in s && whole[0] == s[0];
      assert whole[1..] == s[1..] + [59] + rest;
      UpTo(s[1..], rest);
    }
  }

  lemma {:induction false} UpToSplit(s: Bytes) returns (rest: Bytes)
    ensures var front := UpToSemicolon(s); 59 !in front && (s == front || s == front + [59] + rest)
  {
    if s == [] {
      rest := [];
    } else if s[0] == 59 {
      rest := s[1..];
    } else {
      rest := UpToSplit(s[1..]);
      assert s == [s[0]] + s[1..];
    }
  }

  lemma {:induction false} TrimEndBlank(t: Bytes, b: Bytes)
    requires Blank(b) && (t == [] || !IsSpace(t[|t| - 1]))
    ensures TrimEnd(t + b) == t
    decreases |b|
  {
    if b == [] {
      assert t + b == t;
    } else {
      assert (t + b)[..|t + b| - 1] == t + b[..|b| - 1];
      TrimEndBlank(t, b[..|b| - 1]);
    }
  }

  lemma {:induction false} TrimEndSplit(s: Bytes) returns (b: Bytes)
    ensures Blank(b) && s == TrimEnd(s) + b && (TrimEnd(s) == [] || !IsSpace(TrimEnd(s)[|TrimEnd(s)| - 1]))
  {
    if s != [] && IsSpace(s[|s| - 1]) {
      var more := TrimEndSplit(s[..|s| - 1]);
      b := more + [s[|s| - 1]];
      assert s == s[..|s| - 1] + [s[|s| - 1]];
    } else {
      b := [];
      assert s + [] == s;
    }
  }

  lemma TrimAround(a: Bytes, t: Bytes, b: Bytes)
    requires Blank(a) && Blank(b) && Tight(t)
    ensures Trim(a + (t + b)) == t
  {
    if t == [] {
      assert t + b == b && (a + b) + [] == a + b;
      TrimBlank(a + b, []);
    } else {
      TrimBlank(a, t + b);
      TrimEndBlank(t, b);
    }
  }

  lemma BlankNoSemicolon(s: Bytes)
    requires Blank(s)
    ensures 59 !in s
  {
  }

  lemma BareAround(mime: Bytes, a: Bytes, t: Bytes, b: Bytes, rest: Bytes)
    requires Tight(t) && Around(mime, a, t, b, rest)
    ensures Bare(mime) == t
  {
    BlankNoSemicolon(a);
    BlankNoSemicolon(b);
    hide Blank, TrimStart, TrimEnd, UpToSemicolon;
    UpTo(a + (t + b), rest);
    TrimAround(a, t, b);
  }

  lemma AroundBare(mime: Bytes)
    ensures TypeIs(mime, Bare(mime))
  {
    hide Blank, TrimStart, TrimEnd, UpToSemicolon;
    var rest := UpToSplit(mime);
    var front := UpToSemicolon(mime);
    var a := TrimSplit(front);
    var middle := TrimStart(front);
    var b := TrimEndSplit(middle);
    var t := TrimEnd(middle);
    assert front == a + (t + b);
    assert t != [] ==> t[0] == middle[0];
    assert forall i :: 0 <= i < |t| ==> t[i] == front[|a| + i];
    assert Around(mime, a, t, b, rest);
  }

  /** Leaving parameters and space out gives `t` exactly when the type is `t` up to parameters and space. */
  lemma BareExact(mime: Bytes, t: Bytes)
    ensures Bare(mime) == t <==> TypeIs(mime, t)
  {
    AroundBare(mime);
    hide Bare, Around, Tight;
    if TypeIs(mime, t) {
      var a, b, rest :| Around(mime, a, t, b, rest);
      BareAround(mime, a, t, b, rest);
    }
  }

  lemma TokenTight(s: Bytes)
    requires Token(s)
    ensures Tight(s) && 61 !in s
  {
    assert TokenByte(s[0]) && TokenByte(s[|s| - 1]);
  }

  lemma ParametersAround(ps: seq<Parameter>, tail: Bytes) returns (b: Bytes, rest: Bytes)
    requires AllValid(ps) && Blank(tail)
    ensures Blank(b) && (ParametersText(ps, tail) == b || ParametersText(ps, tail) == b + [59] + rest)
  {
    if ps == [] {
      b, rest := tail, [];
    } else {
      var p, more := ps[0], ParametersText(ps[1..], tail);
      assert p.Valid();
      Regroup(p, more);
      b, rest := p.s0, p.s1 + (p.name + (p.s2 + ([61] + (p.s3 + (p.value.Text() + more)))));
      assert p.s0 + ([59] + rest) == b + [59] + rest;
    }
  }

  lemma TokensTight(kind: Bytes, sub: Bytes)
    requires Token(kind) && Token(sub)
    ensures Tight(kind + [47] + sub) && 61 !in kind + [47] + sub
  {
    TokenTight(kind);
    TokenTight(sub);
    hide TokenByte;
    var t := kind + [47] + sub;
    assert t[0] == kind[0] && t[|t| - 1] == sub[|sub| - 1];
  }

  /** Of an accepted type the type and the subtype are left. */
  lemma BareOfTyped(mime: Bytes, kind: Bytes, sub: Bytes, ps: seq<Parameter>, tail: Bytes)
    requires TypedAs(mime, kind, sub, ps, tail)
    ensures Bare(mime) == kind + [47] + sub && 61 !in Bare(mime) && 59 !in Bare(mime)
  {
    hide Token, AllValid, Blank, ParametersText, Bare;
    TokensTight(kind, sub);
    var t := kind + [47] + sub;
    var b, rest := ParametersAround(ps, tail);
    var none: Bytes := [];
    NoneBlank();
    var more := ParametersText(ps, tail);
    assert mime == t + more;
    assert mime == none + (t + b) || mime == none + (t + b) + [59] + rest by {
      assert none + (t + b) == t + b;
      assert t + (b + [59] + rest) == t + b + [59] + rest;
    }
    BareAround(mime, none, t, b, rest);
  }

  lemma NoneBlank()
    ensures Blank([])
  {
  }

  // ---- Pages ----

  function LowerByte(b: byte): byte {
    if 65 <= b <= 90 then b + 32 else b
  }

  const TEXT_HTML: Bytes := Ascii("text/html")

  predicate IsHtml(mime: Bytes) {
    var t := Bare(mime);
    |t| == |TEXT_HTML| && forall i :: 0 <= i < |t| ==> LowerByte(t[i]) == TEXT_HTML[i]
  }

  /** The same letters, capital or small. */
  ghost predicate SameLetters(t: Bytes, u: Bytes) {
    |t| == |u| && forall i :: 0 <= i < |t| ==> t[i] == u[i] || (97 <= u[i] <= 122 && t[i] == u[i] - 32)
  }

  /** `text/html` in any case, with or without parameters. */
  ghost predicate PageType(mime: Bytes) {
    exists t :: TypeIs(mime, t) && SameLetters(t, TEXT_HTML)
  }

  lemma PageTypeExact(mime: Bytes)
    ensures PageType(mime) <==> IsHtml(mime)
  {
    BareExact(mime, Bare(mime));
    if t :| TypeIs(mime, t) && SameLetters(t, TEXT_HTML) {
      BareExact(mime, t);
      LowerSame(t);
    }
    hide Bare, TypeIs;
    LowerSame(Bare(mime));
  }

  lemma LowerSame(t: Bytes)
    ensures SameLetters(t, TEXT_HTML) <==> |t| == |TEXT_HTML| && forall i :: 0 <= i < |t| ==> LowerByte(t[i]) == TEXT_HTML[i]
  {
    assert forall i :: 0 <= i < |TEXT_HTML| ==> TEXT_HTML[i] == 47 || 97 <= TEXT_HTML[i] <= 122;
    if |t| == |TEXT_HTML| {
      assert forall i :: 0 <= i < |t| ==>
        (LowerByte(t[i]) == TEXT_HTML[i] <==> t[i] == TEXT_HTML[i] || (97 <= TEXT_HTML[i] <= 122 && t[i] == TEXT_HTML[i] - 32));
    }
  }
}
