/** Compact JSON web signatures (section 7.1 of RFC 7515): bid_jwt.c and the JSON encoders of
    bid_util.c. Parsing splits a private copy of the text in place, by writing NULs over the
    separators and restoring them afterwards. */
module Jwt {
  import opened Wrappers
  import opened Json
  import opened Crypto
  import Base64
  import KeySet

  const NUL: char := Base64.NUL

  /** The signing input is the first `encDataLength` characters of `encData`. */
  datatype Jwt = Jwt(encData: string, encDataLength: nat, header: Object, payload: Json, signature: bytes) {
    function SigningInput(): string {
      if encDataLength <= |encData| then encData[..encDataLength] else encData
    }

    function Claims(): Object {
      Members(payload)
    }
  }

  /** The index of the first c from p on, |s| if there is none. */
  function IndexOf(s: string, c: char, p: nat): (r: nat)
    requires p <= |s|
    ensures p <= r <= |s| && (r < |s| ==> s[r] == c)
    ensures forall i :: p <= i < r ==> s[i] != c
    decreases |s| - p
  {
    if p == |s| || s[p] == c then p else IndexOf(s, c, p + 1)
  }

  function UpToNul(b: bytes): (r: bytes)
    ensures r <= b && (0 !in b ==> r == b)
  {
    if b == [] || b[0] == 0 then []
    else
      var r := UpToNul(b[1..]);
      assert 0 !in b ==> 0 !in b[1..];
      [b[0]] + r
  }

  // ----- JSON segments -----

  /** `_BIDEncodeJson`. */
  function EncodeJson(codec: Codec, o: Object): Result<string> {
    if |codec.dumps(o)| > Base64.MAX_INPUT then Err(BufferTooLong)
    else Ok(Base64.Encode(codec.dumps(o), Base64.Url))
  }

  /** `_BIDDecodeJson`. */
  function DecodeJson(codec: Codec, s: string): Result<Json> {
    var b :- Base64.Decode(s);
    var j := codec.loads(UpToNul(b));
    if j.None? then Err(InvalidJson) else Ok(j.value)
  }

  lemma JsonRoundTrip(codec: Codec, o: Object)
    requires codec.Lawful() && EncodeJson(codec, o).Ok?
    ensures DecodeJson(codec, EncodeJson(codec, o).value) == Ok(Obj(o))
    ensures '.' !in EncodeJson(codec, o).value && '~' !in EncodeJson(codec, o).value
  {
    hide Base64.Decode, Base64.Encode;
    Base64.RoundTrip(codec.dumps(o), Base64.Url);
    Base64.EncodedAlphabet(codec.dumps(o));
    assert Base64.Pos('.').None? && Base64.Pos('~').None?;
  }

  lemma {:induction false} UpToNulAppend(b: bytes, junk: bytes)
    requires 0 !in b
    ensures UpToNul(b + [0] + junk) == b
  {
    if b == [] {
      assert b + [0] + junk == [0] + junk;
    } else {
      assert (b + [0] + junk)[1..] == b[1..] + [0] + junk;
      UpToNulAppend(b[1..], junk);
    }
  }

  /** What follows a NUL inside an encoded object is not read: an object has many encodings. */
  lemma JsonStopsAtNul(codec: Codec, o: Object, junk: bytes)
    requires codec.Lawful()
    ensures DecodeJson(codec, Base64.Encode(codec.dumps(o) + [0] + junk, Base64.Url)) == Ok(Obj(o))
  {
    hide Base64.Decode, Base64.Encode;
    Base64.RoundTrip(codec.dumps(o) + [0] + junk, Base64.Url);
    UpToNulAppend(codec.dumps(o), junk);
  }

  // ----- headers -----

  const KNOWN_PARAMETERS: set<string> := {"alg", "crit", "cty", "typ", "x5c", "x5t"}

  /** `_BIDValidateJWTHeader`: only "cty", "typ" and "crit" are looked at. */
  predicate ValidHeader(header: Json): (valid: bool)
    ensures valid ==> header.Obj?
  {
    && header.Obj?
    && ("cty" in header.members ==> header.members["cty"] == Str("JWT"))
    && ("typ" in header.members ==> header.members["typ"] == Str("JWS"))
    && ("crit" in header.members && header.members["crit"].Arr? ==>
          forall j :: j in header.members["crit"].elems ==> j.Str? && j.s in KNOWN_PARAMETERS)
  }

  /** What the parser asks of a header: if it names its own and its payload's type these are "JWS" and "JWT", and
      of what it calls critical every element names one of the six parameters that are known. */
  ghost predicate Understood(header: Object) {
    && (Get(header, "typ").Some? ==> GetString(header, "typ") == Some("JWS"))
    && (Get(header, "cty").Some? ==> GetString(header, "cty") == Some("JWT"))
    && ("crit" in header && header["crit"].Arr? ==>
          forall i :: 0 <= i < |header["crit"].elems| ==> NamesKnown(header["crit"].elems[i]))
  }

  ghost predicate NamesKnown(j: Json) {
    || j == Str("alg") || j == Str("x5c") || j == Str("x5t")
    || j == Str("typ") || j == Str("cty") || j == Str("crit")
  }

  lemma HeaderExactly(header: Json)
    ensures ValidHeader(header) <==> header.Obj? && Understood(header.members)
  {
    if header.Obj? && "crit" in header.members && header.members["crit"].Arr? {
      var elems := header.members["crit"].elems;
      forall j: Json
        ensures j.Str? && j.s in KNOWN_PARAMETERS <==> NamesKnown(j)
      {
      }
      assert forall i :: 0 <= i < |elems| ==> elems[i] in elems;
    }
  }

  // ----- parsing -----

  /** The three segments around the separators at d1 and d2. */
  function ParseAt(codec: Codec, s: string, d1: nat, d2: nat): Result<Jwt>
    requires d1 < d2 < |s|
  {
    var header :- DecodeJson(codec, s[..d1]);
    if !ValidHeader(header) then Err(InvalidJsonWebToken)
    else
      var payload :- DecodeJson(codec, s[d1 + 1..d2]);
      var signature :- Base64.Decode(s[d2 + 1..]);
      Ok(Jwt(s, d2, header.members, payload, signature))
  }

  /** `_BIDParseJWT`; the empty string is no token, not an error. */
  function Parse(codec: Codec, s: string): Result<Option<Jwt>> {
    if s == "" then Ok(None)
    else
      var d1 := IndexOf(s, '.', 0);
      if d1 == |s| then Err(InvalidJsonWebToken)
      else
        var d2 := IndexOf(s, '.', d1 + 1);
        if d2 == |s| then Err(InvalidSignature)
        else
          var jwt :- ParseAt(codec, s, d1, d2);
          Ok(Some(jwt))
  }

  /** Which error tells that a separator is missing. */
  lemma MissingSeparators(codec: Codec, a: string, b: string)
    requires '.' !in a && '.' !in b && a != ""
    ensures Parse(codec, a) == Err(InvalidJsonWebToken)
    ensures Parse(codec, a + "." + b) == Err(InvalidSignature)
  {
    hide ParseAt;
    var s := a + "." + b;
    assert forall i :: 0 <= i < |a| ==> s[i] == a[i];
    assert forall i :: |a| + 1 <= i < |s| ==> s[i] == b[i - |a| - 1];
    assert s[|a|] == '.' && IndexOf(s, '.', 0) == |a|;
  }

  /** The C string that starts at p ends at end. */
  ghost predicate StringAt(buf: array<char>, p: nat, end: nat)
    reads buf
  {
    p <= end < buf.Length && buf[end] == NUL && forall i :: p <= i < end ==> buf[i] != NUL
  }

  /** `strchr`. */
  method StrChr(buf: array<char>, p: nat, c: char, ghost end: nat) returns (r: Option<nat>)
    requires StringAt(buf, p, end) && c != NUL
    ensures r.Some? ==> p <= r.value < end && buf[r.value] == c && forall i :: p <= i < r.value ==> buf[i] != c
    ensures r.None? ==> forall i :: p <= i < end ==> buf[i] != c
  {
    var i := p;
    while buf[i] != NUL && buf[i] != c
      invariant p <= i <= end
      invariant forall j :: p <= j < i ==> buf[j] != c
      decreases end - i
    {
      i := i + 1;
    }
    return if buf[i] == c then Some(i) else None;
  }

  method ReadString(buf: array<char>, p: nat, ghost end: nat) returns (s: string)
    requires StringAt(buf, p, end)
    ensures s == buf[p..end]
  {
    var i := p;
    while buf[i] != NUL
      invariant p <= i <= end
      decreases end - i
    {
      i := i + 1;
    }
    return buf[p..i];
  }

  method MemCpy(dst: array<char>, p: nat, src: string) returns (p': nat)
    requires p + |src| <= dst.Length
    modifies dst
    ensures p' == p + |src|
    ensures dst[..p'] == old(dst[..p]) + src
  {
    for i := 0 to |src|
      invariant forall j :: 0 <= j < p ==> dst[j] == old(dst[j])
      invariant forall j :: p <= j < p + i ==> dst[j] == src[j - p]
    {
      dst[p + i] := src[i];
    }
    p' := p + |src|;
  }

  method DecodeJsonSegment(codec: Codec, s: string) returns (r: Result<Json>)
    ensures r == DecodeJson(codec, s)
  {
    var b :- Base64.Base64UrlDecode(s);
    var j := codec.loads(UpToNul(b));
    r := if j.None? then Err(InvalidJson) else Ok(j.value);
  }

  /** buf holds the text s and its terminator, with NULs over the separators at cuts. */
  ghost predicate Holds(buf: array<char>, s: string, cuts: set<nat>)
    reads buf
  {
    && buf.Length == |s| + 1 && buf[|s|] == NUL
    && forall i :: 0 <= i < |s| ==> buf[i] == if i in cuts then NUL else s[i]
  }

  ghost predicate NulFree(s: string) {
    forall i :: 0 <= i < |s| ==> s[i] != NUL
  }

  /** `_BIDDuplicateString`. */
  method DuplicateString(s: string) returns (buf: array<char>)
    ensures fresh(buf) && Holds(buf, s, {})
  {
    buf := new char[|s| + 1];
    var end := MemCpy(buf, 0, s);
    buf[end] := NUL;
    assert buf[..|s|] == s;
  }

  /** The part of `_BIDParseJWT` between cutting the copy at d1 and d2 and restoring it. */
  method ParseCut(codec: Codec, szJwt: string, buf: array<char>, d1: nat, d2: nat) returns (r: Result<Jwt>)
    requires NulFree(szJwt) && d1 < d2 < |szJwt| && szJwt[d1] == szJwt[d2] == '.'
    requires Holds(buf, szJwt, {d1, d2})
    modifies buf
    ensures r == ParseAt(codec, szJwt, d1, d2)
    ensures r.Ok? ==> Holds(buf, szJwt, {})
  {
    hide DecodeJson, ValidHeader;
    var text := ReadString(buf, 0, d1);
    assert text == szJwt[..d1];
    var header :- DecodeJsonSegment(codec, text);
    if !ValidHeader(header) {
      return Err(InvalidJsonWebToken);
    }
    text := ReadString(buf, d1 + 1, d2);
    assert text == szJwt[d1 + 1..d2];
    var payload :- DecodeJsonSegment(codec, text);
    text := ReadString(buf, d2 + 1, |szJwt|);
    assert text == szJwt[d2 + 1..];
    var signature :- Base64.Base64UrlDecode(text);
    buf[d1] := '.';
    text := ReadString(buf, 0, d2);
    buf[d2] := '.';
    return Ok(Jwt(szJwt, |text|, header.members, payload, signature));
  }

  /** `_BIDParseJWT` on its copy of the text. When it succeeds the copy is the text again. */
  method ParseJWT(codec: Codec, szJwt: string) returns (r: Result<Option<Jwt>>, buf: array<char>)
    requires NulFree(szJwt)
    ensures r == Parse(codec, szJwt)
    ensures fresh(buf)
    ensures r.Ok? && r.value.Some? ==> Holds(buf, szJwt, {})
  {
    hide ParseAt;
    buf := DuplicateString(szJwt);
    if szJwt == "" {
      return Ok(None), buf;
    }
    ghost var end := |szJwt|;
    var dot := StrChr(buf, 0, '.', end);
    if dot.None? {
      return Err(InvalidJsonWebToken), buf;
    }
    var d1 := dot.value;
    buf[d1] := NUL;
    assert forall i {:trigger szJwt[i]} :: d1 < i < |szJwt| ==> szJwt[i] == buf[i];
    dot := StrChr(buf, d1 + 1, '.', end);
    if dot.None? {
      return Err(InvalidSignature), buf;
    }
    var d2 := dot.value;
    buf[d2] := NUL;
    assert IndexOf(szJwt, '.', 0) == d1 && IndexOf(szJwt, '.', d1 + 1) == d2;
    var jwt := ParseCut(codec, szJwt, buf, d1, d2);
    r := if jwt.Ok? then Ok(Some(jwt.value)) else Err(jwt.error);
  }

  // ----- signing -----

  /** What a signer produces: the text, and the token as its parser should see it. */
  datatype Signed = Signed(text: string, jwt: Jwt)

  function SignedHeader(header: Object, name: string, certChain: Option<Json>): Object {
    var h := header["alg" := Str(name)];
    if certChain.Some? then h["x5c" := certChain.value] else h
  }

  /** The algorithm that a key set is used with. */
  function SignerName(c: Crypto, keyset: Option<Json>): Result<string> {
    if keyset.None? then Ok("none")
    else
      var s :- KeySet.Signer(c, keyset.value);
      Ok(s.0.id)
  }

  /** `_BIDMakeSignature`; without a key set the algorithm is "none" and the signature empty. */
  function MakeSigned(c: Crypto, codec: Codec, header: Object, payload: Object, keyset: Option<Json>,
                      certChain: Option<Json>): Result<Signed>
  {
    var signer :- if keyset.None? then Ok(None) else
                    var s :- KeySet.Signer(c, keyset.value); Ok(Some(s));
    var h := SignedHeader(header, if signer.Some? then signer.value.0.id else "none", certChain);
    var encHeader :- EncodeJson(codec, h);
    var encPayload :- EncodeJson(codec, payload);
    var input := encHeader + "." + encPayload;
    var signature :- if signer.None? then Ok([]) else KeySet.Sign(c, signer.value.0, signer.value.1, input);
    if |signature| > Base64.MAX_INPUT then Err(BufferTooLong)
    else
      var text := input + "." + Base64.Encode(signature, Base64.Url);
      Ok(Signed(text, Jwt(text, |input|, h, Obj(payload), signature)))
  }

  method EncodeJsonSegment(codec: Codec, o: Object) returns (r: Result<string>)
    ensures r == EncodeJson(codec, o)
  {
    r := Base64.Base64Encode(codec.dumps(o), Base64.Url);
  }

  /** Two strings around one '.', assembled with a moving cursor. */
  method JoinDot(a: string, b: string) returns (s: string)
    ensures s == a + "." + b
  {
    var buf := new char[|a| + 1 + |b|];
    var p := MemCpy(buf, 0, a);
    p := MemCpy(buf, p, ".");
    p := MemCpy(buf, p, b);
    assert buf[..p] == buf[..];
    return buf[..];
  }

  /** `_BIDMakeSignature` and `_BIDMakeSignatureData`. */
  method MakeSignature(c: Crypto, codec: Codec, header: Object, payload: Object, keyset: Option<Json>,
                       certChain: Option<Json>) returns (r: Result<Signed>)
    ensures r == MakeSigned(c, codec, header, payload, keyset, certChain)
  {
    hide KeySet.Signer, KeySet.Sign, EncodeJson, Base64.Encode;
    var signer: Option<(KeySet.Algorithm, Json)> := None;
    if keyset.Some? {
      var s :- KeySet.SelectSigningKey(c, keyset.value);
      signer := Some(s);
    }
    var h := header["alg" := Str(if signer.Some? then signer.value.0.id else "none")];
    if certChain.Some? {
      h := h["x5c" := certChain.value];
    }
    var encHeader :- EncodeJsonSegment(codec, h);
    var encPayload :- EncodeJsonSegment(codec, payload);
    var input := JoinDot(encHeader, encPayload);
    var signature: bytes := [];
    if signer.Some? {
      signature :- KeySet.Sign(c, signer.value.0, signer.value.1, input);
    }
    var encSignature :- Base64.Base64Encode(signature, Base64.Url);
    var text := JoinDot(input, encSignature);
    return Ok(Signed(text, Jwt(text, |input|, h, Obj(payload), signature)));
  }

  // ----- round trip -----

  /** The separators of a joined text are where the joiner put them. */
  lemma SplitJoined(a: string, b: string, t: string)
    requires '.' !in a && '.' !in b
    ensures var s := a + "." + b + "." + t;
            && IndexOf(s, '.', 0) == |a|
            && IndexOf(s, '.', |a| + 1) == |a| + 1 + |b| < |s|
            && s[..|a|] == a && s[|a| + 1..|a| + 1 + |b|] == b && s[|a| + |b| + 2..] == t
            && s[..|a| + 1 + |b|] == a + "." + b
  {
    var s := a + "." + b + "." + t;
    assert forall i :: 0 <= i < |a| ==> s[i] == a[i];
    assert forall i :: |a| + 1 <= i < |a| + 1 + |b| ==> s[i] == b[i - |a| - 1];
    assert s[|a|] == '.' && s[|a| + 1 + |b|] == '.';
  }

  /** Three decodable segments without a separator in the first two parse into their contents. */
  lemma ParseJoined(codec: Codec, a: string, b: string, t: string, header: Object, payload: Object, signature: bytes)
    requires '.' !in a && '.' !in b
    requires DecodeJson(codec, a) == Ok(Obj(header)) && DecodeJson(codec, b) == Ok(Obj(payload)) && Base64.Decode(t) == Ok(signature)
    ensures var s := a + "." + b + "." + t;
            Parse(codec, s) == if ValidHeader(Obj(header)) then Ok(Some(Jwt(s, |a + "." + b|, header, Obj(payload), signature)))
                               else Err(InvalidJsonWebToken)
  {
    hide Base64.Decode, DecodeJson, ValidHeader, IndexOf;
    SplitJoined(a, b, t);
  }

  /** A token that parses has a header that is understood. */
  lemma ParsedHeader(codec: Codec, s: string)
    requires Parse(codec, s).Ok? && Parse(codec, s).value.Some?
    ensures Understood(Parse(codec, s).value.value.header)
  {
    hide DecodeJson, Base64.Decode, ValidHeader, Understood;
    HeaderExactly(Obj(Parse(codec, s).value.value.header));
  }

  lemma HeaderOf(c: Crypto, codec: Codec, header: Object, payload: Object, keyset: Option<Json>, certChain: Option<Json>)
    requires MakeSigned(c, codec, header, payload, keyset, certChain).Ok?
    ensures SignerName(c, keyset).Ok?
    ensures MakeSigned(c, codec, header, payload, keyset, certChain).value.jwt.header ==
            SignedHeader(header, SignerName(c, keyset).value, certChain)
  {
    hide Base64.Encode, KeySet.Signer, KeySet.Sign, EncodeJson, SignedHeader;
  }

  /** What signing needs: a key of the set that signs, and header, payload and signature that the encoder takes. */
  lemma SignsExactly(c: Crypto, codec: Codec, header: Object, payload: Object, keyset: Option<Json>, certChain: Option<Json>)
    ensures MakeSigned(c, codec, header, payload, keyset, certChain).Ok? <==>
            && SignerName(c, keyset).Ok?
            && var h := SignedHeader(header, SignerName(c, keyset).value, certChain);
            && |codec.dumps(h)| <= Base64.MAX_INPUT && |codec.dumps(payload)| <= Base64.MAX_INPUT
            && (keyset.Some? ==>
                  && var (alg, key) := KeySet.Signer(c, keyset.value).value;
                  && var input := Base64.Encode(codec.dumps(h), Base64.Url) + "." + Base64.Encode(codec.dumps(payload), Base64.Url);
                  && KeySet.Sign(c, alg, key, input).Ok? && |KeySet.Sign(c, alg, key, input).value| <= Base64.MAX_INPUT)
  {
    hide Base64.Encode, KeySet.Signer, KeySet.Sign, SignedHeader;
  }

  /** Two tokens made with one key set are equal exactly when their payloads and signed headers are. */
  lemma SameToken(c: Crypto, codec: Codec, header: Object, payload: Object, certChain: Option<Json>,
                  header': Object, payload': Object, certChain': Option<Json>, keyset: Option<Json>)
    requires MakeSigned(c, codec, header, payload, keyset, certChain).Ok?
    requires MakeSigned(c, codec, header', payload', keyset, certChain').Ok?
    ensures SignerName(c, keyset).Ok?
    ensures var name := SignerName(c, keyset).value;
            MakeSigned(c, codec, header, payload, keyset, certChain).value.jwt ==
              MakeSigned(c, codec, header', payload', keyset, certChain').value.jwt <==>
            payload == payload' && SignedHeader(header, name, certChain) == SignedHeader(header', name, certChain')
  {
    hide Base64.Encode, KeySet.Signer, KeySet.Sign, EncodeJson, SignedHeader;
  }

  /** Parsing a signed text recovers header, payload and signature, and its signing input is
      the very string that was signed; only a header that the parser refuses is lost. */
  lemma ParseSigned(c: Crypto, codec: Codec, header: Object, payload: Object, keyset: Option<Json>,
                    certChain: Option<Json>)
    requires codec.Lawful()
    requires MakeSigned(c, codec, header, payload, keyset, certChain).Ok?
    ensures var s := MakeSigned(c, codec, header, payload, keyset, certChain).value;
            && Parse(codec, s.text) ==
                 (if ValidHeader(Obj(s.jwt.header)) then Ok(Some(s.jwt)) else Err(InvalidJsonWebToken))
            && '~' !in s.text
  {
    hide Base64.Encode, Base64.Decode, KeySet.Signer, KeySet.Sign, DecodeJson, EncodeJson, ValidHeader, Parse;
    var s := MakeSigned(c, codec, header, payload, keyset, certChain).value;
    JsonRoundTrip(codec, s.jwt.header);
    JsonRoundTrip(codec, payload);
    var encSignature := Base64.Encode(s.jwt.signature, Base64.Url);
    Base64.RoundTrip(s.jwt.signature, Base64.Url);
    Base64.EncodedAlphabet(s.jwt.signature);
    assert Base64.Pos('~').None?;
    ParseJoined(codec, EncodeJson(codec, s.jwt.header).value, EncodeJson(codec, payload).value, encSignature,
                s.jwt.header, payload, s.jwt.signature);
    NoTilde(EncodeJson(codec, s.jwt.header).value, EncodeJson(codec, payload).value, encSignature);
  }

  lemma NoTilde(a: string, b: string, t: string)
    requires '~' !in a && '~' !in b && '~' !in t
    ensures '~' !in a + "." + b + "." + t
  {
  }

  /** A text signed under a key set verifies under that key set. */
  lemma SignedVerifies(c: Crypto, codec: Codec, header: Object, payload: Object, keyset: Json, certChain: Option<Json>)
    requires c.Lawful()
    requires MakeSigned(c, codec, header, payload, Some(keyset), certChain).Ok?
    ensures var jwt := MakeSigned(c, codec, header, payload, Some(keyset), certChain).value.jwt;
            KeySet.VerifySignature(c, jwt.header, jwt.SigningInput(), jwt.signature, Some(keyset)).Ok?
  {
    hide Base64.Encode, Base64.Decode, KeySet.Signer, KeySet.Verifier, EncodeJson;
    var jwt := MakeSigned(c, codec, header, payload, Some(keyset), certChain).value.jwt;
    KeySet.SameSelection(c, keyset);
    var (alg, key) := KeySet.Signer(c, keyset).value;
    assert jwt.SigningInput() == EncodeJson(codec, jwt.header).value + "." + EncodeJson(codec, payload).value;
    assert KeySet.Sign(c, alg, key, jwt.SigningInput()) == Ok(jwt.signature);
  }

  // ----- other texts of one token -----

  /** Two tokens with one content under one signature: only their texts may differ. */
  predicate SameContent(a: Jwt, b: Jwt) {
    a.header == b.header && a.payload == b.payload && a.signature == b.signature && a.SigningInput() == b.SigningInput()
  }

  /** The signature segment of a token's text. */
  function SignatureText(s: string): string {
    var d1 := IndexOf(s, '.', 0);
    var d2 := if d1 == |s| then |s| else IndexOf(s, '.', d1 + 1);
    if d2 == |s| then "" else s[d2 + 1..]
  }

  lemma IndexInPrefix(s: string, x: string, c: char, p: nat)
    requires p <= |s| && IndexOf(s, c, p) < |s|
    ensures IndexOf(s + x, c, p) == IndexOf(s, c, p)
  {
    assert forall i :: 0 <= i < |s| ==> (s + x)[i] == s[i];
  }

  /** A token whose signature is encoded without padding has other texts: padding behind it, and anything
      after that, changes neither its content nor its signing input. */
  lemma ParseRepadded(codec: Codec, s: string, junk: string)
    requires Parse(codec, s).Ok? && Parse(codec, s).value.Some? && '=' !in SignatureText(s)
    ensures var s' := s + Base64.Padding(|SignatureText(s)|) + junk;
            && Parse(codec, s').Ok? && Parse(codec, s').value.Some?
            && SameContent(Parse(codec, s).value.value, Parse(codec, s').value.value)
  {
    hide Base64.Decode, DecodeJson, ValidHeader, IndexOf;
    var d1 := IndexOf(s, '.', 0);
    var d2 := IndexOf(s, '.', d1 + 1);
    var x := Base64.Padding(|SignatureText(s)|) + junk;
    assert s + Base64.Padding(|SignatureText(s)|) + junk == s + x;
    IndexInPrefix(s, x, '.', 0);
    IndexInPrefix(s, x, '.', d1 + 1);
    assert (s + x)[..d1] == s[..d1] && (s + x)[d1 + 1..d2] == s[d1 + 1..d2] && (s + x)[..d2] == s[..d2];
    assert (s + x)[d2 + 1..] == s[d2 + 1..] + Base64.Padding(|s[d2 + 1..]|) + junk;
    Base64.PaddingIgnored(s[d2 + 1..], junk);
  }
}
