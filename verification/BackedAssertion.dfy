/** The '~'-separated backed assertion of bid_util.c: `_BIDUnpackBackedAssertion` and
    `_BIDPackBackedAssertion`. */
module BackedAssertion {
  import opened Wrappers
  import opened Json
  import opened Crypto
  import opened Jwt
  import Base64

  /** BID_MAX_CERTS */
  const MAX_CERTS: nat := 10

  datatype BackedAssertion = BackedAssertion(encData: string, assertion: Jwt, certificates: seq<Jwt>)

  // ----- unpacking -----

  function Append(certs: seq<Jwt>, jwt: Option<Jwt>): seq<Jwt> {
    if jwt.Some? then certs + [jwt.value] else certs
  }

  lemma AppendOne(certs: seq<Jwt>, jwt: Jwt)
    ensures Append(certs, Some(jwt)) == certs + [jwt]
  {
  }

  /** The unpacker's loop from index p on, with the certificates read so far. */
  function UnpackFrom(codec: Codec, s: string, p: nat, certs: seq<Jwt>): Result<BackedAssertion>
    requires p <= |s|
    decreases |s| - p
  {
    var q := IndexOf(s, '~', p);
    if q == |s| then
      var jwt :- Parse(codec, s[p..]);
      if jwt.None? then Err(InvalidAssertion) else Ok(BackedAssertion(s, jwt.value, certs))
    else if |certs| >= MAX_CERTS then Err(TooManyCerts)
    else
      var jwt :- Parse(codec, s[p..q]);
      UnpackFrom(codec, s, q + 1, Append(certs, jwt))
  }

  function Unpack(codec: Codec, s: string): Result<BackedAssertion> {
    UnpackFrom(codec, s, 0, [])
  }

  /** A certificate segment, cut out by a NUL over the separator at q and parsed; the
      separator is put back unless parsing fails. */
  method CutSegment(codec: Codec, ghost s: string, encData: array<char>, p: nat, q: nat) returns (jwt: Result<Option<Jwt>>)
    requires NulFree(s) && p <= q < |s| && s[q] == '~' && Holds(encData, s, {})
    modifies encData
    ensures jwt == Parse(codec, s[p..q])
    ensures jwt.Ok? ==> Holds(encData, s, {})
  {
    hide Parse;
    encData[q] := NUL;
    var segment := ReadString(encData, p, q);
    assert segment == s[p..q];
    var buf;
    jwt, buf := ParseJWT(codec, segment);
    if jwt.Ok? {
      encData[q] := '~';
    }
  }

  lemma IndexIs(s: string, c: char, p: nat, r: nat)
    requires p <= r <= |s| && (r < |s| ==> s[r] == c) && forall i :: p <= i < r ==> s[i] != c
    ensures IndexOf(s, c, p) == r
  {
  }

  /** The next separator of the copy. */
  method FindSeparator(ghost s: string, encData: array<char>, p: nat) returns (q: Option<nat>)
    requires NulFree(s) && p <= |s| && Holds(encData, s, {})
    ensures q == if IndexOf(s, '~', p) == |s| then None else Some(IndexOf(s, '~', p))
  {
    hide IndexOf;
    q := StrChr(encData, p, '~', |s|);
    assert forall i {:trigger s[i]} :: 0 <= i < |s| ==> s[i] == encData[i];
    IndexIs(s, '~', p, if q.Some? then q.value else |s|);
  }

  /** The last segment, which must be a token. */
  method ReadAssertion(codec: Codec, ghost s: string, encData: array<char>, p: nat) returns (jwt: Result<Option<Jwt>>)
    requires NulFree(s) && p <= |s| && Holds(encData, s, {})
    ensures jwt == Parse(codec, s[p..])
  {
    hide Parse;
    var last := ReadString(encData, p, |s|);
    assert last == s[p..];
    var buf;
    jwt, buf := ParseJWT(codec, last);
  }

  /** `_BIDUnpackBackedAssertion` on its copy of the text; on success the copy is restored. */
  method UnpackBackedAssertion(codec: Codec, encodedJson: string)
    returns (r: Result<BackedAssertion>, encData: array<char>)
    requires NulFree(encodedJson)
    ensures r == Unpack(codec, encodedJson)
    ensures fresh(encData)
    ensures r.Ok? ==> Holds(encData, encodedJson, {})
  {
    hide Parse, IndexOf, Append;
    encData := DuplicateString(encodedJson);
    ghost var s := encodedJson;
    var certs: seq<Jwt> := [];
    var p := 0;
    while true
      invariant 0 <= p <= |s|
      invariant Holds(encData, s, {})
      invariant UnpackFrom(codec, s, p, certs) == Unpack(codec, s)
      decreases |s| - p
    {
      var q := FindSeparator(encodedJson, encData, p);
      if q.None? {
        var jwt := ReadAssertion(codec, encodedJson, encData, p);
        if jwt.Err? {
          return Err(jwt.error), encData;
        } else if jwt.value.None? {
          return Err(InvalidAssertion), encData;
        }
        return Ok(BackedAssertion(encodedJson, jwt.value.value, certs)), encData;
      }
      if |certs| >= MAX_CERTS {
        return Err(TooManyCerts), encData;
      }
      var jwt := CutSegment(codec, encodedJson, encData, p, q.value);
      if jwt.Err? {
        return Err(jwt.error), encData;
      }
      certs := Append(certs, jwt.value);
      p := q.value + 1;
    }
  }

  // ----- what unpacking means -----

  function Split(s: string): (segs: seq<string>)
    ensures segs != []
    decreases |s|
  {
    var q := IndexOf(s, '~', 0);
    if q == |s| then [s] else [s[..q]] + Split(s[q + 1..])
  }

  function Join(segs: seq<string>): string
    requires segs != []
  {
    if |segs| == 1 then segs[0] else segs[0] + "~" + Join(segs[1..])
  }

  /** Splitting loses nothing, and no segment holds a separator. */
  lemma {:induction false} JoinOfSplit(s: string)
    ensures Join(Split(s)) == s
    ensures forall seg :: seg in Split(s) ==> '~' !in seg
    decreases |s|
  {
    var q := IndexOf(s, '~', 0);
    if q < |s| {
      JoinOfSplit(s[q + 1..]);
      assert s == s[..q] + "~" + s[q + 1..];
    }
  }

  lemma SplitCons(x: string, rest: string)
    requires '~' !in x
    ensures Split(x) == [x] && Split(x + "~" + rest) == [x] + Split(rest)
  {
    var s := x + "~" + rest;
    assert forall i :: 0 <= i < |x| ==> s[i] == x[i] && x[i] != '~';
    assert IndexOf(x, '~', 0) == |x|;
    assert s[|x|] == '~';
    assert IndexOf(s, '~', 0) == |x|;
    assert s[..|x|] == x && s[|x| + 1..] == rest;
  }

  lemma {:induction false} SplitOfJoin(segs: seq<string>)
    requires segs != [] && forall seg :: seg in segs ==> '~' !in seg
    ensures Split(Join(segs)) == segs
  {
    hide Split;
    assert segs[0] in segs;
    if |segs| == 1 {
      SplitCons(segs[0], "");
    } else {
      SplitCons(segs[0], Join(segs[1..]));
      SplitOfJoin(segs[1..]);
    }
  }

  /** What the segments make: non-empty segments before the last are certificates, the last
      one is the assertion, and no separator may follow MAX_CERTS certificates. */
  function Assemble(codec: Codec, encData: string, segs: seq<string>, certs: seq<Jwt>): Result<BackedAssertion>
    requires segs != []
  {
    if |segs| == 1 then
      var jwt :- Parse(codec, segs[0]);
      if jwt.None? then Err(InvalidAssertion) else Ok(BackedAssertion(encData, jwt.value, certs))
    else if |certs| >= MAX_CERTS then Err(TooManyCerts)
    else
      var jwt :- Parse(codec, segs[0]);
      Assemble(codec, encData, segs[1..], Append(certs, jwt))
  }

  lemma IndexOfSuffix(s: string, c: char, p: nat)
    requires p <= |s|
    ensures IndexOf(s, c, p) == p + IndexOf(s[p..], c, 0)
  {
  }

  lemma SplitUnfolds(t: string)
    ensures var k := IndexOf(t, '~', 0);
            Split(t) == if k == |t| then [t] else [t[..k]] + Split(t[k + 1..])
  {
    hide IndexOf;
  }

  lemma SliceOfSlice(s: string, p: nat, q: nat)
    requires p <= q < |s|
    ensures s[p..][..q - p] == s[p..q] && s[p..][q - p + 1..] == s[q + 1..]
  {
  }

  lemma SplitAt(s: string, p: nat)
    requires p <= |s|
    ensures var q := IndexOf(s, '~', p);
            Split(s[p..]) == if q == |s| then [s[p..]] else [s[p..q]] + Split(s[q + 1..])
  {
    hide IndexOf, Split;
    var q := IndexOf(s, '~', p);
    IndexOfSuffix(s, '~', p);
    SplitUnfolds(s[p..]);
    if q < |s| {
      SliceOfSlice(s, p, q);
    }
  }

  /** Unpacking the text in place is splitting it on '~' and assembling the segments. */
  lemma {:induction false} UnpackIsSplit(codec: Codec, s: string, p: nat, certs: seq<Jwt>)
    requires p <= |s|
    ensures UnpackFrom(codec, s, p, certs) == Assemble(codec, s, Split(s[p..]), certs)
    decreases |s| - p
  {
    hide Parse, Split, IndexOf, Append;
    var q := IndexOf(s, '~', p);
    SplitAt(s, p);
    if q < |s| {
      var rest := Split(s[q + 1..]);
      assert ([s[p..q]] + rest)[1..] == rest;
      if |certs| < MAX_CERTS && Parse(codec, s[p..q]).Ok? {
        UnpackIsSplit(codec, s, q + 1, Append(certs, Parse(codec, s[p..q]).value));
      }
    }
  }

  /** What a text unpacks into has headers that are understood, and at most ten certificates. */
  lemma {:induction false} AssembledUnderstood(codec: Codec, encData: string, segs: seq<string>, certs: seq<Jwt>)
    requires segs != [] && Assemble(codec, encData, segs, certs).Ok?
    requires |certs| <= 10 && forall cert :: cert in certs ==> Understood(cert.header)
    ensures var ba := Assemble(codec, encData, segs, certs).value;
            && Understood(ba.assertion.header) && |ba.certificates| <= 10
            && forall cert :: cert in ba.certificates ==> Understood(cert.header)
    decreases |segs|
  {
    hide Parse, Understood;
    var jwt := Parse(codec, segs[0]).value;
    if jwt.Some? {
      ParsedHeader(codec, segs[0]);
    }
    if |segs| > 1 {
      AssembledUnderstood(codec, encData, segs[1..], Append(certs, jwt));
    }
  }

  lemma UnpackedUnderstood(codec: Codec, s: string)
    requires Unpack(codec, s).Ok?
    ensures var ba := Unpack(codec, s).value;
            && ba.encData == s && Understood(ba.assertion.header) && |ba.certificates| <= 10
            && forall cert :: cert in ba.certificates ==> Understood(cert.header)
  {
    hide Parse, Split, UnpackFrom, Understood, Assemble;
    UnpackIsSplit(codec, s, 0, []);
    assert s[0..] == s;
    AssembledUnderstood(codec, s, Split(s), []);
    AssembledData(codec, s, Split(s), []);
  }

  lemma {:induction false} AssembledData(codec: Codec, encData: string, segs: seq<string>, certs: seq<Jwt>)
    requires segs != [] && Assemble(codec, encData, segs, certs).Ok?
    ensures Assemble(codec, encData, segs, certs).value.encData == encData
    decreases |segs|
  {
    hide Parse, Append;
    if |segs| > 1 {
      AssembledData(codec, encData, segs[1..], Append(certs, Parse(codec, segs[0]).value));
    }
  }

  function NonEmpty(segs: seq<string>): nat {
    if segs == [] then 0 else (if segs[0] == "" then 0 else 1) + NonEmpty(segs[1..])
  }

  /** The first p segments all parse, ten of them are not empty, and there is still a separator to come. */
  ghost predicate TenBefore(codec: Codec, segs: seq<string>, count: nat, p: nat) {
    && p + 1 < |segs| && count + NonEmpty(segs[..p]) >= 10
    && forall seg :: seg in segs[..p] ==> Parse(codec, seg).Ok?
  }

  lemma ParseErrors(codec: Codec, s: string)
    ensures Parse(codec, s) != Err(TooManyCerts)
    ensures Parse(codec, s).Ok? ==> (Parse(codec, s).value.None? <==> s == "")
  {
    hide ValidHeader, IndexOf;
    if s != "" {
      var d1 := IndexOf(s, '.', 0);
      DecodeJsonErrors(codec, s[..d1]);
      if d1 < |s| {
        var d2 := IndexOf(s, '.', d1 + 1);
        if d2 < |s| {
          DecodeJsonErrors(codec, s[d1 + 1..d2]);
          Base64.DecodeErrors(s[d2 + 1..]);
        }
      }
    }
  }

  lemma DecodeJsonErrors(codec: Codec, s: string)
    ensures DecodeJson(codec, s) != Err(TooManyCerts)
  {
    Base64.DecodeErrors(s);
  }

  lemma TenShift(codec: Codec, segs: seq<string>, count: nat, p: nat)
    requires segs != []
    ensures TenBefore(codec, segs, count, p + 1) <==>
            Parse(codec, segs[0]).Ok? && TenBefore(codec, segs[1..], count + (if segs[0] == "" then 0 else 1), p)
  {
    hide Parse;
    if p + 2 < |segs| {
      var front := segs[1..][..p];
      assert segs[..p + 1] == [segs[0]] + front && ([segs[0]] + front)[1..] == front;
    }
  }

  /** Unpacking refuses a text for its number of certificates exactly when a separator follows ten certificates. */
  lemma {:induction false} TooManyExactly(codec: Codec, encData: string, segs: seq<string>, certs: seq<Jwt>)
    requires segs != []
    ensures Assemble(codec, encData, segs, certs) == Err(TooManyCerts) <==> exists p: nat :: TenBefore(codec, segs, |certs|, p)
    decreases |segs|
  {
    hide Parse, TenBefore;
    ParseErrors(codec, segs[0]);
    TenNow(codec, segs, |certs|);
    var count := |certs| + (if segs[0] == "" then 0 else 1);
    if |segs| > 1 && |certs| < 10 && Parse(codec, segs[0]).Ok? {
      TooManyExactly(codec, encData, segs[1..], Append(certs, Parse(codec, segs[0]).value));
      if p: nat :| TenBefore(codec, segs[1..], count, p) {
        TenShift(codec, segs, |certs|, p);
      }
    }
    if p: nat :| TenBefore(codec, segs, |certs|, p) {
      if p > 0 {
        TenShift(codec, segs, |certs|, p - 1);
      }
    }
  }

  lemma TenNow(codec: Codec, segs: seq<string>, count: nat)
    ensures TenBefore(codec, segs, count, 0) <==> 1 < |segs| && count >= 10
    ensures |segs| <= 1 ==> forall p: nat :: !TenBefore(codec, segs, count, p)
  {
  }

  /** Two unpacked assertions with the same content and signatures, token by token. */
  ghost predicate SameTokens(a: BackedAssertion, b: BackedAssertion) {
    && SameContent(a.assertion, b.assertion) && |a.certificates| == |b.certificates|
    && forall i :: 0 <= i < |a.certificates| ==> SameContent(a.certificates[i], b.certificates[i])
  }

  /** Two texts of one assertion, with its certificates. */
  ghost predicate SameAssertion(codec: Codec, s: string, s': string) {
    var a, b := Unpack(codec, s), Unpack(codec, s');
    a.Ok? && b.Ok? && SameTokens(a.value, b.value)
  }

  function Relabel(r: Result<BackedAssertion>, encData: string): Result<BackedAssertion> {
    if r.Ok? then Ok(r.value.(encData := encData)) else r
  }

  lemma {:induction false} AssembleRelabels(codec: Codec, a: string, b: string, segs: seq<string>, certs: seq<Jwt>)
    requires segs != []
    ensures Assemble(codec, b, segs, certs) == Relabel(Assemble(codec, a, segs, certs), b)
    decreases |segs|
  {
    hide Parse, Append;
    if |segs| > 1 && |certs| < MAX_CERTS && Parse(codec, segs[0]).Ok? {
      AssembleRelabels(codec, a, b, segs[1..], Append(certs, Parse(codec, segs[0]).value));
    }
  }

  /** An extra separator in front changes the text but not what it unpacks into. */
  lemma LeadingSeparator(codec: Codec, s: string)
    ensures Unpack(codec, "~" + s) == Relabel(Unpack(codec, s), "~" + s)
  {
    hide Parse, Split, UnpackFrom, Assemble;
    UnpackIsSplit(codec, s, 0, []);
    UnpackIsSplit(codec, "~" + s, 0, []);
    assert s[0..] == s && ("~" + s)[0..] == "~" + s == "" + "~" + s;
    SplitCons("", s);
    AssembleSkips(codec, "~" + s, Split(s));
    AssembleRelabels(codec, s, "~" + s, Split(s), []);
  }

  /** An empty segment in front is skipped. */
  lemma AssembleSkips(codec: Codec, encData: string, segs: seq<string>)
    requires segs != []
    ensures Assemble(codec, encData, [""] + segs, []) == Assemble(codec, encData, segs, [])
  {
    hide Parse;
    EmptyIsNoToken(codec);
    assert ([""] + segs)[1..] == segs;
  }

  function Last(segs: seq<string>): string
    requires segs != []
  {
    segs[|segs| - 1]
  }

  /** The segments with x behind the last one. */
  function Extend(segs: seq<string>, x: string): (r: seq<string>)
    requires segs != []
    ensures r != []
  {
    segs[..|segs| - 1] + [Last(segs) + x]
  }

  lemma ExtendTail(segs: seq<string>, x: string)
    requires |segs| > 1
    ensures Extend(segs, x)[0] == segs[0] && Extend(segs, x)[1..] == Extend(segs[1..], x) && Last(segs[1..]) == Last(segs)
  {
  }

  lemma {:induction false} SplitExtends(s: string, x: string)
    requires '~' !in x
    ensures Split(s + x) == Extend(Split(s), x)
    decreases |s|
  {
    hide Split;
    JoinOfSplit(s);
    SplitUnfolds(s);
    var q := IndexOf(s, '~', 0);
    if q == |s| {
      assert Split(s) == [s] && '~' !in s + x;
      SplitCons(s + x, "");
    } else {
      var rest := s[q + 1..];
      assert '~' !in s[..q] && s == s[..q] + "~" + rest && s + x == s[..q] + "~" + (rest + x);
      SplitCons(s[..q], rest + x);
      SplitExtends(rest, x);
      ExtendTail([s[..q]] + Split(rest), x);
      assert ([s[..q]] + Split(rest))[1..] == Split(rest);
    }
  }

  /** A last segment that parses into the same content changes nothing else. */
  lemma {:induction false} AssembleExtends(codec: Codec, a: string, b: string, segs: seq<string>, x: string, certs: seq<Jwt>)
    requires segs != [] && Assemble(codec, a, segs, certs).Ok?
    requires var last, last' := Parse(codec, Last(segs)), Parse(codec, Last(segs) + x);
             last.Ok? && last.value.Some? ==> last'.Ok? && last'.value.Some? && SameContent(last.value.value, last'.value.value)
    ensures var r := Assemble(codec, b, Extend(segs, x), certs);
            r.Ok? && SameTokens(Assemble(codec, a, segs, certs).value, r.value)
    decreases |segs|
  {
    hide Parse, Append, SameContent;
    if |segs| == 1 {
      SameSelf(certs);
    } else {
      ExtendTail(segs, x);
      AssembleExtends(codec, a, b, segs[1..], x, Append(certs, Parse(codec, segs[0]).value));
    }
  }

  lemma SameSelf(certs: seq<Jwt>)
    ensures forall i :: 0 <= i < |certs| ==> SameContent(certs[i], certs[i])
  {
  }

  lemma {:induction false} LastParses(codec: Codec, a: string, segs: seq<string>, certs: seq<Jwt>)
    requires segs != [] && Assemble(codec, a, segs, certs).Ok?
    ensures Parse(codec, Last(segs)).Ok? && Parse(codec, Last(segs)).value.Some?
    decreases |segs|
  {
    hide Parse, Append;
    if |segs| > 1 {
      LastParses(codec, a, segs[1..], Append(certs, Parse(codec, segs[0]).value));
    }
  }

  /** The text of the assertion's signature. */
  function AssertionSignature(s: string): string {
    SignatureText(Last(Split(s)))
  }

  /** The text with its signature padded, and with anything behind the padding. */
  function Repadded(s: string, junk: string): string {
    s + Base64.Padding(|AssertionSignature(s)|) + junk
  }

  /** A text whose signature is not padded is only one of many texts of its assertion. */
  lemma RepaddedIsSame(codec: Codec, s: string, junk: string)
    requires Unpack(codec, s).Ok? && '=' !in AssertionSignature(s) && '~' !in junk
    ensures SameAssertion(codec, s, Repadded(s, junk))
  {
    hide Parse, Split, UnpackFrom, Assemble, SignatureText, SameTokens;
    var x := Base64.Padding(|AssertionSignature(s)|) + junk;
    var s', segs := s + x, Split(s);
    assert Repadded(s, junk) == s';
    UnpackIsSplit(codec, s, 0, []);
    UnpackIsSplit(codec, s', 0, []);
    assert s[0..] == s && s'[0..] == s';
    SplitExtends(s, x);
    LastParses(codec, s, segs, []);
    ParseRepadded(codec, Last(segs), junk);
    assert Last(segs) + x == Last(segs) + Base64.Padding(|AssertionSignature(s)|) + junk;
    AssembleExtends(codec, s, s', segs, x, []);
  }

  // ----- packing -----

  /** The payloads and headers that are to be signed. */
  datatype Claims = Claims(header: Object, payload: Object)

  function SignAll(c: Crypto, codec: Codec, certs: seq<Claims>, keyset: Option<Json>): (r: Result<seq<Signed>>)
    ensures r.Ok? ==> |r.value| == |certs|
  {
    if certs == [] then Ok([])
    else
      var first :- MakeSigned(c, codec, certs[0].header, certs[0].payload, keyset, None);
      var rest :- SignAll(c, codec, certs[1..], keyset);
      Ok([first] + rest)
  }

  function Texts(signed: seq<Signed>): (r: seq<string>)
    ensures |r| == |signed| && forall i :: 0 <= i < |r| ==> r[i] == signed[i].text
  {
    seq(|signed|, i requires 0 <= i < |signed| => signed[i].text)
  }

  /** `_BIDPackBackedAssertion`: the assertion comes first. */
  function Pack(c: Crypto, codec: Codec, assertion: Claims, certs: seq<Claims>, keyset: Option<Json>,
                certChain: Option<Json>): Result<(string, seq<Signed>)>
  {
    var first :- MakeSigned(c, codec, assertion.header, assertion.payload, keyset, certChain);
    var rest :- SignAll(c, codec, certs, keyset);
    Ok(("~" + Join(Texts([first] + rest)), [first] + rest))
  }

  lemma {:induction false} JoinSnoc(segs: seq<string>, x: string)
    requires segs != []
    ensures Join(segs + [x]) == Join(segs) + "~" + x
  {
    if |segs| > 1 {
      assert (segs + [x])[1..] == segs[1..] + [x];
      JoinSnoc(segs[1..], x);
      assert segs[0] + "~" + (Join(segs[1..]) + "~" + x) == segs[0] + "~" + Join(segs[1..]) + "~" + x;
    }
  }

  function Total(texts: seq<string>): nat {
    if texts == [] then 0 else Total(texts[..|texts| - 1]) + 1 + |texts[|texts| - 1]|
  }

  /** Joining the signed texts with a moving cursor, in a buffer of the computed size. */
  method JoinTexts(texts: seq<string>) returns (text: string)
    requires texts != []
    ensures text == "~" + Join(texts)
  {
    hide Join, Total;
    var length := 0;
    assert Total(texts[..0]) == 0 by {
      NoTotal(texts[..0]);
    }
    for i := 0 to |texts|
      invariant length == Total(texts[..i])
    {
      NextText(texts, i);
      length := length + 1 + |texts[i]|;
    }
    assert texts[..|texts|] == texts;
    var buf := new char[length];
    var p := 0;
    for i := 0 to |texts|
      invariant p == Total(texts[..i]) && p <= buf.Length
      invariant i > 0 ==> buf[..p] == "~" + Join(texts[..i])
    {
      TotalMonotone(texts, i + 1);
      NextText(texts, i);
      p := StoreText(buf, p, texts[i]);
    }
    assert buf[..p] == buf[..];
    return buf[..];
  }

  lemma NoTotal(texts: seq<string>)
    requires texts == []
    ensures Total(texts) == 0
  {
  }

  method StoreText(buf: array<char>, p: nat, text: string) returns (p': nat)
    requires p + 1 + |text| <= buf.Length
    modifies buf
    ensures p' == p + 1 + |text| && buf[..p'] == old(buf[..p]) + "~" + text
  {
    p' := MemCpy(buf, p, "~");
    p' := MemCpy(buf, p', text);
  }

  /** The length and the text after one more token. */
  lemma NextText(texts: seq<string>, i: nat)
    requires i < |texts|
    ensures Total(texts[..i + 1]) == Total(texts[..i]) + 1 + |texts[i]|
    ensures i == 0 ==> [] + "~" + texts[i] == "~" + Join(texts[..i + 1])
    ensures i > 0 ==> "~" + Join(texts[..i]) + "~" + texts[i] == "~" + Join(texts[..i + 1])
  {
    hide Join;
    assert texts[..i + 1] == texts[..i] + [texts[i]];
    assert texts[..i + 1][..i] == texts[..i];
    if i == 0 {
      assert texts[..1] == [texts[0]];
      JoinOne(texts[0]);
    } else {
      JoinSnoc(texts[..i], texts[i]);
      assert "~" + Join(texts[..i]) + "~" + texts[i] == "~" + (Join(texts[..i]) + "~" + texts[i]);
    }
  }

  lemma JoinOne(text: string)
    ensures Join([text]) == text
  {
  }

  lemma {:induction false} TotalMonotone(texts: seq<string>, i: nat)
    requires i <= |texts|
    ensures Total(texts[..i]) <= Total(texts)
    decreases |texts| - i
  {
    if i == |texts| {
      assert texts[..i] == texts;
    } else {
      assert texts[..i + 1][..i] == texts[..i];
      TotalMonotone(texts, i + 1);
    }
  }

  /** `_BIDPackBackedAssertion`. */
  method PackBackedAssertion(c: Crypto, codec: Codec, assertion: Claims, certs: seq<Claims>, keyset: Option<Json>,
                             certChain: Option<Json>) returns (r: Result<string>)
    requires |certs| <= MAX_CERTS
    ensures var spec := Pack(c, codec, assertion, certs, keyset, certChain);
            r == if spec.Ok? then Ok(spec.value.0) else Err(spec.error)
  {
    hide MakeSigned;
    var first := MakeSignature(c, codec, assertion.header, assertion.payload, keyset, certChain);
    if first.Err? {
      return Err(first.error);
    }
    var signed := [first.value];
    ghost var all := SignAll(c, codec, certs, keyset);
    for i := 0 to |certs|
      invariant |signed| == i + 1
      invariant SignAll(c, codec, certs[i..], keyset).Err? ==> all == SignAll(c, codec, certs[i..], keyset)
      invariant SignAll(c, codec, certs[i..], keyset).Ok? ==>
                  all.Ok? && [first.value] + all.value == signed + SignAll(c, codec, certs[i..], keyset).value
    {
      assert certs[i..][1..] == certs[i + 1..];
      var cert := MakeSignature(c, codec, certs[i].header, certs[i].payload, keyset, None);
      if cert.Err? {
        return Err(cert.error);
      }
      signed := signed + [cert.value];
    }
    assert certs[|certs|..] == [] && signed + [] == signed;
    var text := JoinTexts(Texts(signed));
    return Ok(text);
  }

  lemma {:induction false} SignedParse(c: Crypto, codec: Codec, certs: seq<Claims>, keyset: Option<Json>)
    requires codec.Lawful() && SignAll(c, codec, certs, keyset).Ok?
    ensures forall s :: s in SignAll(c, codec, certs, keyset).value && ValidHeader(Obj(s.jwt.header)) ==>
              Parse(codec, s.text) == Ok(Some(s.jwt)) && '~' !in s.text
  {
    if certs != [] {
      hide MakeSigned, Parse, ValidHeader;
      SignedParse(c, codec, certs[1..], keyset);
      ParseSigned(c, codec, certs[0].header, certs[0].payload, keyset, None);
    }
  }

  lemma JwtsFront(signed: seq<Signed>, certs: seq<Jwt>)
    requires |signed| >= 2
    ensures certs + [signed[0].jwt] + Jwts(signed[1..][..|signed| - 2]) == certs + Jwts(signed[..|signed| - 1])
    ensures Texts(signed)[1..] == Texts(signed[1..])
  {
  }

  /** Tokens without an empty one among them: the last is the assertion. */
  lemma {:induction false} AssembleTokens(codec: Codec, encData: string, signed: seq<Signed>, certs: seq<Jwt>)
    requires signed != []
    requires forall x :: x in signed ==> Parse(codec, x.text) == Ok(Some(x.jwt))
    requires |certs| + |signed| <= MAX_CERTS + 1
    ensures Assemble(codec, encData, Texts(signed), certs) ==
            Ok(BackedAssertion(encData, signed[|signed| - 1].jwt, certs + Jwts(signed[..|signed| - 1])))
  {
    hide Parse, Append, Texts, Jwts;
    assert signed[0] in signed;
    AppendOne(certs, signed[0].jwt);
    if |signed| == 1 {
      assert certs + Jwts(signed[..0]) == certs;
    } else {
      AssembleTokens(codec, encData, signed[1..], certs + [signed[0].jwt]);
      JwtsFront(signed, certs);
    }
  }

  function Jwts(signed: seq<Signed>): (r: seq<Jwt>)
    ensures |r| == |signed| && forall i :: 0 <= i < |r| ==> r[i] == signed[i].jwt
  {
    seq(|signed|, i requires 0 <= i < |signed| => signed[i].jwt)
  }

  /** Every token before the last one equals its successor exactly when all are equal. */
  lemma {:induction false} RotationIsIdentity(signed: seq<Signed>)
    requires signed != []
    ensures Jwts(signed[..|signed| - 1]) == Jwts(signed[1..]) <==>
            forall x :: x in signed ==> x.jwt == signed[0].jwt
  {
    var n := |signed| - 1;
    var front, back := Jwts(signed[..n]), Jwts(signed[1..]);
    assert forall i :: 0 <= i < n ==> front[i] == signed[i].jwt && back[i] == signed[i + 1].jwt;
    if front == back {
      for i := 0 to n
        invariant forall j :: 0 <= j <= i ==> signed[j].jwt == signed[0].jwt
      {
        assert front[i] == back[i];
      }
    }
  }

  /** Unpacking a text of joined tokens, each of which parses. */
  lemma UnpackTexts(codec: Codec, signed: seq<Signed>)
    requires 0 < |signed| <= MAX_CERTS + 1
    requires forall x :: x in signed ==> Parse(codec, x.text) == Ok(Some(x.jwt)) && '~' !in x.text
    ensures var text, n := "~" + Join(Texts(signed)), |signed| - 1;
            Unpack(codec, text) == Ok(BackedAssertion(text, signed[n].jwt, Jwts(signed[..n])))
  {
    hide Parse, Split, UnpackFrom, Join, Jwts;
    var text, n := "~" + Join(Texts(signed)), |signed| - 1;
    var segs := [""] + Texts(signed);
    UnpackIsSplit(codec, text, 0, []);
    assert segs[1..] == Texts(signed);
    assert text[0..] == text;
    JoinAfterEmpty(Texts(signed));
    SplitOfJoin(segs);
    EmptyIsNoToken(codec);
    AssembleTokens(codec, text, signed, []);
    assert [] + Jwts(signed[..n]) == Jwts(signed[..n]);
  }

  lemma JoinAfterEmpty(segs: seq<string>)
    requires segs != []
    ensures Join([""] + segs) == "~" + Join(segs)
  {
  }

  /** The headers that are to be signed are ones the parser accepts. */
  ghost predicate HeadersValid(c: Crypto, assertion: Claims, certs: seq<Claims>, keyset: Option<Json>, certChain: Option<Json>) {
    var name := SignerName(c, keyset);
    name.Ok? ==>
      && ValidHeader(Obj(SignedHeader(assertion.header, name.value, certChain)))
      && forall i :: 0 <= i < |certs| ==> ValidHeader(Obj(SignedHeader(certs[i].header, name.value, None)))
  }

  lemma {:induction false} SignedAt(c: Crypto, codec: Codec, certs: seq<Claims>, keyset: Option<Json>, i: nat)
    requires SignAll(c, codec, certs, keyset).Ok? && i < |certs|
    ensures MakeSigned(c, codec, certs[i].header, certs[i].payload, keyset, None) == Ok(SignAll(c, codec, certs, keyset).value[i])
  {
    hide MakeSigned;
    if i > 0 {
      SignedAt(c, codec, certs[1..], keyset, i - 1);
    }
  }

  lemma TokensValid(c: Crypto, codec: Codec, assertion: Claims, certs: seq<Claims>, keyset: Option<Json>, certChain: Option<Json>)
    requires Pack(c, codec, assertion, certs, keyset, certChain).Ok? && HeadersValid(c, assertion, certs, keyset, certChain)
    ensures forall s :: s in Pack(c, codec, assertion, certs, keyset, certChain).value.1 ==> ValidHeader(Obj(s.jwt.header))
  {
    hide MakeSigned, SignAll, Join, Texts, SignerName, SignedHeader, ValidHeader;
    var rest := SignAll(c, codec, certs, keyset).value;
    HeaderOf(c, codec, assertion.header, assertion.payload, keyset, certChain);
    forall i | 0 <= i < |certs|
      ensures ValidHeader(Obj(rest[i].jwt.header))
    {
      SignedAt(c, codec, certs, keyset, i);
      HeaderOf(c, codec, certs[i].header, certs[i].payload, keyset, None);
    }
  }

  lemma PackedTokens(c: Crypto, codec: Codec, assertion: Claims, certs: seq<Claims>, keyset: Option<Json>, certChain: Option<Json>)
    requires codec.Lawful() && Pack(c, codec, assertion, certs, keyset, certChain).Ok?
    requires HeadersValid(c, assertion, certs, keyset, certChain)
    ensures var (text, signed) := Pack(c, codec, assertion, certs, keyset, certChain).value;
            && |signed| == |certs| + 1 && text == "~" + Join(Texts(signed))
            && forall x :: x in signed ==> Parse(codec, x.text) == Ok(Some(x.jwt)) && '~' !in x.text
  {
    hide MakeSigned, Parse, ValidHeader, Join, Texts, HeadersValid;
    TokensValid(c, codec, assertion, certs, keyset, certChain);
    ParseSigned(c, codec, assertion.header, assertion.payload, keyset, certChain);
    SignedParse(c, codec, certs, keyset);
    var signed := Pack(c, codec, assertion, certs, keyset, certChain).value.1;
    assert signed[0] in signed;
  }

  /** What comes back from a packed assertion: the last token as the assertion and the others
      as certificates. */
  lemma PackUnpack(c: Crypto, codec: Codec, assertion: Claims, certs: seq<Claims>, keyset: Option<Json>,
                   certChain: Option<Json>)
    requires codec.Lawful() && |certs| <= MAX_CERTS
    requires Pack(c, codec, assertion, certs, keyset, certChain).Ok?
    requires HeadersValid(c, assertion, certs, keyset, certChain)
    ensures var (text, signed) := Pack(c, codec, assertion, certs, keyset, certChain).value;
            && |signed| == |certs| + 1
            && Unpack(codec, text) ==
               Ok(BackedAssertion(text, signed[|certs|].jwt, Jwts(signed[..|certs|])))
  {
    hide Pack, Parse, ValidHeader, Unpack, Join, Texts, Jwts, HeadersValid;
    PackedTokens(c, codec, assertion, certs, keyset, certChain);
    UnpackTexts(codec, Pack(c, codec, assertion, certs, keyset, certChain).value.1);
  }

  /** The caller's certificates are all signed over what the assertion is signed over. */
  ghost predicate AllAlike(c: Crypto, assertion: Claims, certs: seq<Claims>, keyset: Option<Json>, certChain: Option<Json>) {
    var name := SignerName(c, keyset);
    name.Ok? && forall i :: 0 <= i < |certs| ==>
      && certs[i].payload == assertion.payload
      && SignedHeader(certs[i].header, name.value, None) == SignedHeader(assertion.header, name.value, certChain)
  }

  /** The tokens of a packed assertion are all equal exactly when the caller's claims are alike. */
  lemma TokensAlike(c: Crypto, codec: Codec, assertion: Claims, certs: seq<Claims>, keyset: Option<Json>, certChain: Option<Json>)
    requires Pack(c, codec, assertion, certs, keyset, certChain).Ok?
    ensures var signed := Pack(c, codec, assertion, certs, keyset, certChain).value.1;
            (forall x :: x in signed ==> x.jwt == signed[0].jwt) <==> AllAlike(c, assertion, certs, keyset, certChain)
  {
    hide MakeSigned, SignAll, Join, Texts, SignerName, SignedHeader;
    var first := MakeSigned(c, codec, assertion.header, assertion.payload, keyset, certChain).value;
    var rest := SignAll(c, codec, certs, keyset).value;
    var signed := [first] + rest;
    SameToken(c, codec, assertion.header, assertion.payload, certChain, assertion.header, assertion.payload, certChain, keyset);
    forall i | 0 <= i < |certs|
      ensures rest[i].jwt == first.jwt <==>
              certs[i].payload == assertion.payload
              && SignedHeader(certs[i].header, SignerName(c, keyset).value, None) ==
                 SignedHeader(assertion.header, SignerName(c, keyset).value, certChain)
    {
      SignedAt(c, codec, certs, keyset, i);
      SameToken(c, codec, certs[i].header, certs[i].payload, None, assertion.header, assertion.payload, certChain, keyset);
    }
    assert forall i :: 0 <= i < |rest| ==> rest[i] in signed;
  }

  /** The assertion and the certificates survive packing and unpacking exactly when there are no
      certificates, or all of them are signed over what the assertion is. */
  lemma PackRoundTrip(c: Crypto, codec: Codec, assertion: Claims, certs: seq<Claims>, keyset: Option<Json>,
                      certChain: Option<Json>)
    requires codec.Lawful() && |certs| <= MAX_CERTS
    requires Pack(c, codec, assertion, certs, keyset, certChain).Ok?
    requires HeadersValid(c, assertion, certs, keyset, certChain)
    ensures var (text, signed) := Pack(c, codec, assertion, certs, keyset, certChain).value;
            Unpack(codec, text) == Ok(BackedAssertion(text, signed[0].jwt, Jwts(signed[1..]))) <==>
            certs == [] || AllAlike(c, assertion, certs, keyset, certChain)
  {
    hide Pack, Unpack, ValidHeader, AllAlike, HeadersValid;
    PackUnpack(c, codec, assertion, certs, keyset, certChain);
    RotationIsIdentity(Pack(c, codec, assertion, certs, keyset, certChain).value.1);
    TokensAlike(c, codec, assertion, certs, keyset, certChain);
    var signed := Pack(c, codec, assertion, certs, keyset, certChain).value.1;
    assert certs == [] ==> forall x :: x in signed ==> x == signed[0];
  }

  lemma EmptyIsNoToken(codec: Codec)
    ensures Parse(codec, "") == Ok(None)
  {
  }
}
