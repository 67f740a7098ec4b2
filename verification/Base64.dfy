/** Base64 with the URL and the standard alphabet (sections 4 and 5 of RFC 4648), as written by
    libbrowserid/bid_base64.c. The last block has three shapes: unpadded (URL mode), the
    padding of `_BIDBase64Encode` in non-URL mode, and the padding of mech_browserid's
    `base64Encode`, which differ when one byte is left over. */
module Base64 {
  import opened Wrappers

  datatype Encoding = Url | Standard | Padded

  const NUL: char := '\0'

  /** UINT_MAX / 4 */
  const MAX_INPUT: nat := 0x3fff_ffff

  function Min(a: nat, b: nat): nat {
    if a <= b then a else b
  }

  // ----- the alphabet -----

  function Digit(i: nat, enc: Encoding): (c: char)
    requires i < 64
    ensures c != NUL && c != '=' && c != '.' && c != '~'
  {
    if i < 26 then ('A' as int + i) as char
    else if i < 52 then ('a' as int + (i - 26)) as char
    else if i < 62 then ('0' as int + (i - 52)) as char
    else if i == 62 then (if enc.Url? then '-' else '+')
    else if enc.Url? then '_' else '/'
  }

  /** The position of a character in either alphabet. */
  function Pos(c: char): (i: Option<nat>)
    ensures i.Some? ==> i.value < 64
  {
    if 'A' <= c <= 'Z' then Some(c as int - 'A' as int)
    else if 'a' <= c <= 'z' then Some(c as int - 'a' as int + 26)
    else if '0' <= c <= '9' then Some(c as int - '0' as int + 52)
    else if c == '-' || c == '+' then Some(62)
    else if c == '_' || c == '/' then Some(63)
    else None
  }

  lemma PosOfDigit(i: nat, enc: Encoding)
    requires i < 64
    ensures Pos(Digit(i, enc)) == Some(i)
  {
  }

  const NUMERALS := "0123456789"

  /** The alphabets of sections 4 and 5 of RFC 4648, in order of value. */
  const STANDARD_ALPHABET: string := UPPER + LOWER + NUMERALS + "+/"
  const URL_ALPHABET: string := UPPER + LOWER + NUMERALS + "-_"

  function Alphabet(enc: Encoding): (s: string)
    ensures |s| == 64
  {
    if enc.Url? then URL_ALPHABET else STANDARD_ALPHABET
  }

  lemma DigitIs(i: nat, enc: Encoding)
    requires i < 64
    ensures Digit(i, enc) == Alphabet(enc)[i]
  {
    assert i < 26 ==> UPPER[i] == ('A' as int + i) as char;
    assert 26 <= i < 52 ==> LOWER[i - 26] == ('a' as int + (i - 26)) as char;
    assert 52 <= i < 62 ==> NUMERALS[i - 52] == ('0' as int + (i - 52)) as char;
  }

  /** The decoder knows the characters of both alphabets, by their place. */
  lemma PosIs(c: char)
    ensures Pos(c).Some? <==> c in URL_ALPHABET || c in STANDARD_ALPHABET
    ensures Pos(c).Some? ==> URL_ALPHABET[Pos(c).value] == c || STANDARD_ALPHABET[Pos(c).value] == c
  {
    if Pos(c).Some? {
      DigitIs(Pos(c).value, Url);
      DigitIs(Pos(c).value, Standard);
    } else {
      forall i: nat | i < 64
        ensures URL_ALPHABET[i] != c && STANDARD_ALPHABET[i] != c
      {
        DigitIs(i, Url);
        DigitIs(i, Standard);
        PosOfDigit(i, Url);
        PosOfDigit(i, Standard);
      }
    }
  }

  /** The table search of `pos`, which first folds '+' and '/' into the URL alphabet. */
  method FindPos(c: char) returns (i: Option<nat>)
    ensures i == Pos(c)
  {
    var folded := if c == '+' then '-' else if c == '/' then '_' else c;
    for k := 0 to 64
      invariant forall j: nat :: j < k ==> Digit(j, Url) != folded
    {
      if Digit(k, Url) == folded {
        PosOfDigit(k, Url);
        return Some(k);
      }
    }
    assert Pos(c).Some? ==> Digit(Pos(c).value, Url) == folded;
    return None;
  }

  // ----- encoding -----

  function At(d: bytes, i: nat): byte {
    if i < |d| then d[i] else 0
  }

  /** The 24-bit accumulator `c`; bytes past the end count as zero. */
  function Word(d: bytes): (w: nat)
    ensures w < 0x100_0000
  {
    At(d, 0) * 65536 + At(d, 1) * 256 + At(d, 2)
  }

  /** The characters that stand for one group of at most three bytes. */
  function Group(d: bytes, enc: Encoding): (s: string)
    requires 0 < |d|
    ensures NUL !in s
  {
    var w := Word(d);
    var c0, c1 := Digit(w / 262144, enc), Digit(w / 4096 % 64, enc);
    var c2, c3 := Digit(w / 64 % 64, enc), Digit(w % 64, enc);
    if |d| >= 3 then [c0, c1, c2, c3]
    else if |d| == 2 then (if enc.Url? then [c0, c1, c2] else [c0, c1, c2, '='])
    else if enc.Url? then [c0, c1]
    else if enc.Padded? then [c0, c1, '=', '=']
    else [c0, c1, '=', c3]
  }

  function Rest(d: bytes): (r: bytes)
    ensures d != [] ==> |r| < |d|
  {
    if |d| <= 3 then [] else d[3..]
  }

  function Encode(d: bytes, enc: Encoding): (s: string)
    ensures NUL !in s
    decreases |d|
  {
    if d == [] then "" else Group(d, enc) + Encode(Rest(d), enc)
  }

  /** The four characters that one loop iteration of the encoder stores. */
  function Stored(d: bytes, enc: Encoding): (s: string)
    requires 0 < |d|
    ensures |s| == 4
  {
    if |d| >= 3 || !enc.Url? then Group(d, enc)
    else if |d| == 2 then Group(d, enc) + [NUL]
    else Group(d, enc) + [NUL, Digit(0, enc)]
  }

  function StoredAll(d: bytes, enc: Encoding): (s: string)
    ensures |s| == 4 * ((|d| + 2) / 3)
    decreases |d|
  {
    if d == [] then "" else Stored(d, enc) + StoredAll(Rest(d), enc)
  }

  /** What `strlen` and the string functions see of a NUL-terminated buffer. */
  function CString(s: string): (r: string)
    ensures NUL !in r && r <= s
  {
    if s == "" || s[0] == NUL then "" else [s[0]] + CString(s[1..])
  }

  lemma {:induction false} CStringAppend(a: string, b: string)
    requires NUL !in a
    ensures CString(a + b) == a + CString(b)
  {
    if a == "" {
      assert a + b == b;
    } else {
      assert (a + b)[1..] == a[1..] + b;
      CStringAppend(a[1..], b);
    }
  }

  /** The NUL that URL mode stores inside a short block ends the string there. */
  lemma StoredGroup(d: bytes, enc: Encoding, more: string)
    requires 0 < |d|
    ensures CString(Stored(d, enc) + more) ==
            Group(d, enc) + if |d| < 3 && enc.Url? then "" else CString(more)
  {
    var g, s := Group(d, enc), Stored(d, enc);
    if |d| < 3 && enc.Url? {
      var tail := s[|g|..] + more;
      assert s + more == g + tail;
      CStringAppend(g, tail);
    } else {
      CStringAppend(g, more);
    }
  }

  lemma {:induction false} StoredIsEncoded(d: bytes, enc: Encoding)
    ensures CString(StoredAll(d, enc) + [NUL]) == Encode(d, enc)
    decreases |d|
  {
    if d != [] {
      var more := StoredAll(Rest(d), enc) + [NUL];
      assert StoredAll(d, enc) + [NUL] == Stored(d, enc) + more;
      StoredGroup(d, enc, more);
      StoredIsEncoded(Rest(d), enc);
    }
  }

  lemma GroupLength(d: bytes, enc: Encoding)
    requires 0 < |d|
    ensures |Group(d, enc)| == if |d| >= 3 || !enc.Url? then 4 else |d| + 1
  {
  }

  /** The encoded length is ceil(4n/3) in URL mode and 4*ceil(n/3) otherwise. */
  lemma {:induction false} EncodedLength(d: bytes, enc: Encoding)
    ensures |Encode(d, enc)| == if enc.Url? then (4 * |d| + 2) / 3 else 4 * ((|d| + 2) / 3)
    decreases |d|
  {
    hide Group;
    if d != [] {
      GroupLength(d, enc);
      EncodedLength(Rest(d), enc);
    }
  }

  /** No character of an encoding is a separator of the compact serialisation. */
  lemma {:induction false} EncodedAlphabet(d: bytes)
    ensures forall c :: c in Encode(d, Url) ==> Pos(c).Some?
    decreases |d|
  {
    if d != [] {
      EncodedAlphabet(Rest(d));
      var w := Word(d);
      PosOfDigit(w / 262144, Url);
      PosOfDigit(w / 4096 % 64, Url);
      PosOfDigit(w / 64 % 64, Url);
      PosOfDigit(w % 64, Url);
    }
  }

  /** BASE64_EXPAND(n): the size of the buffer that is allocated. */
  function Expand(n: nat): nat {
    n * 4 / 3 + 4
  }

  /** The 4*ceil(n/3)+1 characters that are stored fit, and exactly fill the buffer when one
      byte is left over. */
  lemma ExpandIsEnough(n: nat)
    ensures 4 * ((n + 2) / 3) + 1 <= Expand(n)
    ensures 4 * ((n + 2) / 3) + 1 == Expand(n) <==> n % 3 == 1
  {
    var q, r := n / 3, n % 3;
    assert n == 3 * q + r;
    assert (n + 2) / 3 == if r == 0 then q else q + 1;
    assert n * 4 / 3 == 4 * q + r;
  }

  method StrLen(s: array<char>) returns (n: nat)
    requires NUL in s[..]
    ensures n < s.Length && s[..n] == CString(s[..])
  {
    n := 0;
    while n < s.Length && s[n] != NUL
      invariant n <= s.Length
      invariant NUL !in s[..n]
    {
      n := n + 1;
    }
    assert s[..] == s[..n] + s[n..];
    CStringAppend(s[..n], s[n..]);
  }

  /** One iteration of the encoder's loop: three bytes in, four characters out. */
  method StoreGroup(data: bytes, i: nat, enc: Encoding, s: array<char>, p: nat)
    requires i < |data| && p + 4 <= s.Length
    requires !enc.Padded?
    modifies s
    ensures s[p..p + 4] == Stored(data[i..], enc)
    ensures s[..p] == old(s[..p])
  {
    hide Digit;
    var size, k := |data|, i;
    var c: nat := data[k];
    k := k + 1;
    c := c * 256;
    if k < size { c := c + data[k]; }
    k := k + 1;
    c := c * 256;
    if k < size { c := c + data[k]; }
    k := k + 1;
    assert c == Word(data[i..]);
    s[p] := Digit(c / 262144, enc);
    s[p + 1] := Digit(c / 4096 % 64, enc);
    s[p + 2] := Digit(c / 64 % 64, enc);
    s[p + 3] := Digit(c % 64, enc);
    if k > size + 1 {
      s[p + 2] := if enc.Url? then NUL else '=';
    } else if k > size {
      s[p + 3] := if enc.Url? then NUL else '=';
    }
  }

  lemma SliceOfTail<T>(a: seq<T>, b: seq<T>, i: nat, j: nat)
    requires |a| <= i <= j <= |a| + |b|
    ensures (a + b)[i..j] == b[i - |a|..j - |a|]
  {
  }

  /** Where the k-th group of three bytes is stored. */
  lemma {:induction false} StoredAt(data: bytes, k: nat, enc: Encoding)
    requires 3 * k < |data|
    ensures 4 * k + 4 <= |StoredAll(data, enc)|
    ensures StoredAll(data, enc)[4 * k..4 * k + 4] == Stored(data[3 * k..], enc)
  {
    hide Stored;
    if k == 0 {
      assert data[0..] == data;
      assert StoredAll(data, enc)[0..4] == Stored(data, enc);
    } else {
      StoredAt(data[3..], k - 1, enc);
      assert data[3..][3 * (k - 1)..] == data[3 * k..];
      SliceOfTail(Stored(data, enc), StoredAll(data[3..], enc), 4 * k, 4 * k + 4);
    }
  }

  /** The encoder's loop. */
  method StoreGroups(data: bytes, enc: Encoding, s: array<char>) returns (p: nat)
    requires !enc.Padded?
    requires |StoredAll(data, enc)| < s.Length
    modifies s
    ensures p < s.Length
    ensures s[..p] == StoredAll(data, enc)
  {
    hide Stored, StoredAll;
    p := 0;
    var i := 0;
    ghost var all := StoredAll(data, enc);
    ghost var k := 0;
    while i < |data|
      invariant i == 3 * k && p == 4 * k && i < |data| + 3
      invariant p <= |all| && s[..p] == all[..p]
    {
      StoredAt(data, k, enc);
      StoreGroup(data, i, enc, s, p);
      assert s[..p + 4] == s[..p] + s[p..p + 4];
      assert all[..p + 4] == all[..p] + all[p..p + 4];
      p, i, k := p + 4, i + 3, k + 1;
    }
    assert p == |all|;
  }

  /** `_BIDBase64Encode`. */
  method Base64Encode(data: bytes, enc: Encoding) returns (r: Result<string>)
    ensures enc.Padded? ==> r == Err(InvalidParameter)
    ensures !enc.Padded? && |data| > MAX_INPUT ==> r == Err(BufferTooLong)
    ensures !enc.Padded? && |data| <= MAX_INPUT ==> r == Ok(Encode(data, enc))
  {
    if enc.Padded? {
      return Err(InvalidParameter);
    }
    if |data| > MAX_INPUT {
      return Err(BufferTooLong);
    }
    ExpandIsEnough(|data|);
    var s := new char[Expand(|data|)];
    var p := StoreGroups(data, enc, s);
    s[p] := NUL;
    assert s[..p + 1] == StoredAll(data, enc) + [NUL];
    var n := StrLen(s);
    StoredIsEncoded(data, enc);
    PrefixCString(s[..p + 1], s[..]);
    return Ok(s[..n]);
  }

  lemma {:induction false} PrefixCString(a: string, b: string)
    requires a <= b && NUL in a
    ensures CString(a) == CString(b)
  {
    if a[0] != NUL {
      PrefixCString(a[1..], b[1..]);
    }
  }

  // ----- decoding -----

  /** The rounds of `_BIDBase64UrlTokenDecode` from round i on. */
  function Scan(tok: string, i: nat, val: nat, marker: nat): Option<(nat, nat)>
    requires i <= 4
    decreases 4 - i
  {
    if i == 4 then Some((marker, val))
    else if i >= |tok| then Scan(tok, i + 1, val * 64, marker)
    else if tok[i] == '=' then Scan(tok, i + 1, val * 64, marker + 1)
    else if marker != 0 || Pos(tok[i]).None? then None
    else Scan(tok, i + 1, val * 64 + Pos(tok[i]).value, marker)
  }

  /** The number of missing bytes and the 24-bit value of a token. */
  function TokenDecode(tok: string): (t: Option<(nat, nat)>)
    ensures t.Some? ==> t.value.0 <= 2 && |tok| >= 2
    ensures t.Some? && t.value.0 == 0 ==> |tok| >= 4
  {
    if |tok| < 2 then None
    else
      var r := Scan(tok, 0, 0, 0);
      if r.None? then None
      else
        var marker := if r.value.0 == 0 then 4 - Min(|tok|, 4) else r.value.0;
        if marker > 2 then None else Some((marker, r.value.1))
  }

  function WordBytes(marker: nat, val: nat): (b: bytes)
    requires marker <= 2
    ensures |b| == 3 - marker
  {
    [val / 65536 % 256, val / 256 % 256, val % 256][..3 - marker]
  }

  function Prepend(b: bytes, r: Result<bytes>): Result<bytes> {
    if r.Ok? then Ok(b + r.value) else r
  }

  function Decode(s: string): Result<bytes>
    decreases |s|
  {
    if s == "" || s[0] == '=' then Ok([])
    else
      var t := TokenDecode(s);
      if t.None? then Err(InvalidBase64)
      else
        var step := 4 - t.value.0;
        if step > |s| then Err(CursorOverrun)
        else Prepend(WordBytes(t.value.0, t.value.1), Decode(s[step..]))
  }

  /** The errors of the decoder. */
  lemma {:induction false} DecodeErrors(s: string)
    ensures Decode(s).Ok? || Decode(s) == Err(InvalidBase64) || Decode(s) == Err(CursorOverrun)
    decreases |s|
  {
    hide TokenDecode, WordBytes;
    if s != "" && s[0] != '=' {
      var t := TokenDecode(s);
      if t.Some? && 4 - t.value.0 <= |s| {
        DecodeErrors(s[4 - t.value.0..]);
      }
    }
  }

  method Base64UrlTokenDecode(str: string, p: nat) returns (t: Option<(nat, nat)>)
    requires p <= |str|
    ensures t == TokenDecode(str[p..])
  {
    hide Pos;
    var toklen := |str| - p;
    if toklen < 2 {
      return None;
    } else if toklen > 4 {
      toklen := 4;
    }
    ghost var tok := str[p..];
    var val, marker: nat := 0, 0;
    for i := 0 to 4
      invariant Scan(tok, i, val, marker) == Scan(tok, 0, 0, 0)
    {
      assert i < toklen ==> str[p + i] == tok[i];
      var tmp := 0;
      if i < toklen {
        if str[p + i] == '=' {
          marker := marker + 1;
        } else if marker != 0 {
          return None;
        } else {
          var pos := FindPos(str[p + i]);
          if pos.None? {
            return None;
          }
          tmp := pos.value;
        }
      }
      val := val * 64 + tmp;
    }
    if marker == 0 {
      marker := 4 - toklen;
    }
    return if marker > 2 then None else Some((marker, val));
  }

  /** The one to three bytes that a token yields. */
  method StoreWord(data: array<byte>, q: nat, marker: nat, val: nat) returns (q': nat)
    requires marker <= 2 && q + 3 - marker <= data.Length
    modifies data
    ensures q' == q + 3 - marker
    ensures data[..q'] == old(data[..q]) + WordBytes(marker, val)
    ensures data[q'..] == old(data[..])[q'..]
  {
    q' := q;
    data[q'] := val / 65536 % 256;
    q' := q' + 1;
    if marker < 2 {
      data[q'] := val / 256 % 256;
      q' := q' + 1;
    }
    if marker < 1 {
      data[q'] := val % 256;
      q' := q' + 1;
    }
  }

  lemma DecodeStop(s: string)
    requires s == "" || s[0] == '='
    ensures Decode(s) == Ok([])
  {
  }

  /** The decoder's loop with room for so many bytes: a token's bytes are stored before the cursor moves. */
  function DecodeWithin(s: string, room: nat): Result<bytes>
    decreases |s|
  {
    if s == "" || s[0] == '=' then Ok([])
    else
      var t := TokenDecode(s);
      if t.None? then Err(InvalidBase64)
      else if 3 - t.value.0 > room then Err(BufferOverrun)
      else if 4 - t.value.0 > |s| then Err(CursorOverrun)
      else Prepend(WordBytes(t.value.0, t.value.1), DecodeWithin(s[4 - t.value.0..], room - (3 - t.value.0)))
  }

  lemma WithinStep(str: string, p: nat, done: bytes, room: nat)
    requires p < |str| && str[p] != '='
    ensures var t := TokenDecode(str[p..]);
            Prepend(done, DecodeWithin(str[p..], room)) ==
            if t.None? then Err(InvalidBase64)
            else if 3 - t.value.0 > room then Err(BufferOverrun)
            else if 4 - t.value.0 > |str| - p then Err(CursorOverrun)
            else Prepend(done + WordBytes(t.value.0, t.value.1), DecodeWithin(str[p + 4 - t.value.0..], room - (3 - t.value.0)))
  {
    hide TokenDecode, WordBytes;
    var t := TokenDecode(str[p..]);
    if t.Some? && 3 - t.value.0 <= room && 4 - t.value.0 <= |str| - p {
      var word, more := WordBytes(t.value.0, t.value.1), DecodeWithin(str[p + 4 - t.value.0..], room - (3 - t.value.0));
      assert str[p..][4 - t.value.0..] == str[p + 4 - t.value.0..];
      assert more.Ok? ==> done + (word + more.value) == done + word + more.value;
    }
  }

  lemma WithinStop(s: string, room: nat)
    requires s == "" || s[0] == '='
    ensures DecodeWithin(s, room) == Ok([])
  {
  }

  /** The loop of `_BIDBase64UrlDecode`, storing into a buffer of the given size. Its test for a full buffer
      comes before a token's bytes are stored and asks only for more bytes than the buffer has, so it can fire
      only after a store past the end. */
  method DecodeInto(str: string, data: array<byte>) returns (r: Result<nat>)
    modifies data
    ensures var spec := DecodeWithin(str, data.Length);
            && r == (if spec.Ok? then Ok(|spec.value|) else Err(spec.error))
            && (spec.Ok? ==>
                  |spec.value| <= data.Length && data[..|spec.value|] == spec.value
                  && data[|spec.value|..] == old(data[..])[|spec.value|..])
  {
    hide DecodeWithin, TokenDecode, WordBytes;
    var p, q := 0, 0;
    assert str[0..] == str && data[..0] == [];
    ghost var spec := DecodeWithin(str, data.Length);
    assert spec.Ok? ==> [] + spec.value == spec.value;
    while p < |str| && str[p] != '='
      invariant 0 <= q <= data.Length && 0 <= p <= |str|
      invariant spec == Prepend(data[..q], DecodeWithin(str[p..], data.Length - q))
      invariant data[q..] == old(data[..])[q..]
      decreases |str| - p
    {
      WithinStep(str, p, data[..q], data.Length - q);
      var t := Base64UrlTokenDecode(str, p);
      if t.None? {
        return Err(InvalidBase64);
      }
      var (marker, val) := t.value;
      if q + 3 - marker > data.Length {
        return Err(BufferOverrun);
      }
      q := StoreWord(data, q, marker, val);
      p := p + 4 - marker;
      if p > |str| {
        return Err(CursorOverrun);
      }
    }
    WithinStop(str[p..], data.Length - q);
    assert data[..q] + [] == data[..q];
    return Ok(q);
  }

  /** As many bytes as characters are always enough. */
  lemma {:induction false} RoomForAll(s: string, room: nat)
    requires |s| <= room
    ensures DecodeWithin(s, room) == Decode(s)
    ensures Decode(s).Ok? ==> |Decode(s).value| <= |s|
    decreases |s|
  {
    hide TokenDecode, WordBytes;
    if s != "" && s[0] != '=' {
      var t := TokenDecode(s);
      if t.Some? && 4 - t.value.0 <= |s| {
        RoomForAll(s[4 - t.value.0..], room - (3 - t.value.0));
      }
    }
  }

  /** A caller's buffer receives the decoded bytes exactly when it can hold them all; otherwise the decoder
      stores past its end. */
  lemma {:induction false} RoomExactly(s: string, room: nat)
    requires Decode(s).Ok?
    ensures DecodeWithin(s, room) == if |Decode(s).value| <= room then Decode(s) else Err(BufferOverrun)
    decreases |s|
  {
    hide TokenDecode, WordBytes;
    if s != "" && s[0] != '=' {
      var t := TokenDecode(s).value;
      if 3 - t.0 <= room {
        RoomExactly(s[4 - t.0..], room - (3 - t.0));
      }
    }
  }

  /** `_BIDBase64UrlDecode` into a buffer that it allocates: `strlen(str) + 1` bytes always hold
      the result, with room for the NUL that `_BIDDecodeJson` appends. */
  method Base64UrlDecode(str: string) returns (r: Result<bytes>)
    ensures r == Decode(str)
    ensures r.Ok? ==> |r.value| <= |str|
  {
    hide Decode, DecodeWithin;
    RoomForAll(str, |str| + 1);
    var data := new byte[|str| + 1];
    var n :- DecodeInto(str, data);
    return Ok(data[..n]);
  }

  // ----- round trip -----

  /** What a token of n digits, padded to at most four characters, decodes to. */
  lemma TokenOfDigits(tok: string, n: nat, x: seq<nat>)
    requires 2 <= n <= 4 && |x| == 4 && n <= |tok|
    requires forall i :: 0 <= i < n ==> tok[i] != '=' && Pos(tok[i]) == Some(x[i])
    requires forall i :: n <= i < 4 ==> x[i] == 0
    requires |tok| == n || n == 4 || (|tok| == 4 && forall i :: n <= i < 4 ==> tok[i] == '=')
    ensures TokenDecode(tok) == Some((4 - n, ((x[0] * 64 + x[1]) * 64 + x[2]) * 64 + x[3]))
  {
  }

  /** A digit after the padding is malformed. */
  lemma TokenAfterPadding(tok: string)
    requires |tok| >= 4 && tok[2] == '=' && tok[3] != '='
    ensures TokenDecode(tok).None?
  {
  }

  lemma Digits(w: nat)
    requires w < 0x100_0000
    ensures ((w / 262144 * 64 + w / 4096 % 64) * 64 + w / 64 % 64) * 64 + w % 64 == w
  {
  }

  lemma WordTail(d: bytes)
    requires 0 < |d|
    ensures |d| <= 2 ==> Word(d) % 64 == 0
    ensures |d| == 1 ==> Word(d) / 64 % 64 == 0
  {
  }

  /** One group decodes to its bytes, however it is padded, except that "XX=A" is malformed. */
  lemma TokenOfGroup(d: bytes, enc: Encoding, more: string)
    requires 0 < |d|
    requires |d| < 3 ==> more == ""
    ensures TokenDecode(Group(d, enc) + more) ==
            if |d| == 1 && enc.Standard? then None
            else Some((if |d| >= 3 then 0 else 3 - |d|, Word(d)))
  {
    hide TokenDecode, Pos, Digit, Word;
    var w := Word(d);
    WordTail(d);
    var tok := Group(d, enc) + more;
    var x := [w / 262144, w / 4096 % 64, w / 64 % 64, w % 64];
    Digits(w);
    PosOfDigit(x[0], enc);
    PosOfDigit(x[1], enc);
    PosOfDigit(x[2], enc);
    PosOfDigit(x[3], enc);
    if |d| == 1 && enc.Standard? {
      TokenAfterPadding(tok);
    } else {
      TokenOfDigits(tok, if |d| >= 3 then 4 else |d| + 1, x);
    }
  }

  lemma Octets(a: byte, b: byte, c: byte)
    ensures var w := a * 65536 + b * 256 + c;
            w / 65536 % 256 == a && w / 256 % 256 == b && w % 256 == c
  {
    var w := a * 65536 + b * 256 + c;
    assert w / 256 == a * 256 + b;
    assert w / 65536 == a;
  }

  lemma WordBytesOfWord(d: bytes)
    requires 0 < |d|
    ensures WordBytes(if |d| >= 3 then 0 else 3 - |d|, Word(d)) == d[..Min(|d|, 3)]
  {
    Octets(At(d, 0), At(d, 1), At(d, 2));
  }

  /** What follows the digits of a group is padding. */
  lemma GroupShape(d: bytes, enc: Encoding)
    requires 0 < |d|
    ensures var g := Group(d, enc);
            && g[0] != '='
            && (|d| >= 3 ==> |g| == 4)
            && (|d| < 3 ==> |d| + 1 <= |g| && (|g| == |d| + 1 || g[|d| + 1] == '='))
  {
  }

  lemma DecodeGroup(d: bytes, enc: Encoding, more: string)
    requires 0 < |d|
    requires |d| < 3 ==> more == ""
    ensures Decode(Group(d, enc) + more) ==
            if |d| >= 3 then Prepend(d[..3], Decode(more))
            else if |d| == 1 && enc.Standard? then Err(InvalidBase64)
            else Ok(d)
  {
    hide Group, TokenDecode, WordBytes, Word;
    var g := Group(d, enc);
    TokenOfGroup(d, enc, more);
    WordBytesOfWord(d);
    GroupShape(d, enc);
    if |d| >= 3 {
      assert (g + more)[4..] == more;
    } else {
      assert g + more == g;
      if !(|d| == 1 && enc.Standard?) {
        DecodeStop(g[|d| + 1..]);
        assert d[..|d|] + [] == d;
      }
    }
  }

  /** Decoding inverts every encoder, except the non-URL one when one byte is left over. */
  lemma {:induction false} RoundTrip(d: bytes, enc: Encoding)
    ensures Decode(Encode(d, enc)) == if enc.Standard? && |d| % 3 == 1 then Err(InvalidBase64) else Ok(d)
    decreases |d|
  {
    hide Group, Decode;
    if d == [] {
      DecodeStop("");
    } else {
      DecodeGroup(d, enc, Encode(Rest(d), enc));
      RoundTrip(Rest(d), enc);
      assert |d| >= 3 ==> d[..3] + Rest(d) == d;
    }
  }

  // ----- what an encoding is -----

  /** The number that digits spell, the most significant first. */
  function Number(x: seq<nat>, base: nat): nat {
    if x == [] then 0 else Number(x[..|x| - 1], base) * base + x[|x| - 1]
  }

  lemma NumberSnoc(x: seq<nat>, a: nat, base: nat)
    ensures Number(x + [a], base) == Number(x, base) * base + a
  {
    assert (x + [a])[..|x|] == x;
  }

  lemma NumberTwo(x: seq<nat>, a: nat, b: nat, base: nat)
    ensures Number(x + [a, b], base) == (Number(x, base) * base + a) * base + b
  {
    assert x + [a, b] == x + [a] + [b];
    NumberSnoc(x, a, base);
    NumberSnoc(x + [a], b, base);
  }

  lemma NumberThree(x: seq<nat>, a: nat, b: nat, c: nat, base: nat)
    ensures Number(x + [a, b, c], base) == ((Number(x, base) * base + a) * base + b) * base + c
  {
    assert x + [a, b, c] == x + [a, b] + [c];
    NumberTwo(x, a, b, base);
    NumberSnoc(x + [a, b], c, base);
  }

  lemma NumberFour(x: seq<nat>, a: nat, b: nat, c: nat, d: nat, base: nat)
    ensures Number(x + [a, b, c, d], base) == (((Number(x, base) * base + a) * base + b) * base + c) * base + d
  {
    assert x + [a, b, c, d] == x + [a, b, c] + [d];
    NumberThree(x, a, b, c, base);
    NumberSnoc(x + [a, b, c], d, base);
  }

  /** An encoding of full groups goes on with that of what follows them. */
  lemma {:induction false} EncodeAppend(d: bytes, more: bytes, enc: Encoding)
    requires |d| % 3 == 0
    ensures Encode(d + more, enc) == Encode(d, enc) + Encode(more, enc)
    decreases |d|
  {
    hide Group, Encode;
    if d == [] {
      assert d + more == more;
      EncodeNone(enc);
    } else {
      var rest := d[3..];
      FirstGroup(d, more, enc);
      EncodeUnfolds(d, enc);
      EncodeUnfolds(d + more, enc);
      assert Rest(d) == rest && Rest(d + more) == rest + more;
      EncodeAppend(rest, more, enc);
    }
  }

  lemma EncodeNone(enc: Encoding)
    ensures Encode([], enc) == ""
  {
  }

  lemma EncodeUnfolds(d: bytes, enc: Encoding)
    requires d != []
    ensures Encode(d, enc) == Group(d, enc) + Encode(Rest(d), enc)
  {
    hide Group;
  }

  /** Only its first three bytes matter to a group. */
  lemma FirstGroup(d: bytes, more: bytes, enc: Encoding)
    requires |d| >= 3
    ensures Group(d + more, enc) == Group(d, enc)
  {
  }

  /** The digits with which an alphabet spells a text. */
  ghost predicate Spells(x: seq<nat>, s: string, enc: Encoding) {
    |x| == |s| && forall i :: 0 <= i < |x| ==> x[i] < 64 && s[i] == Alphabet(enc)[x[i]]
  }

  lemma SpellsAppend(x: seq<nat>, s: string, y: seq<nat>, t: string, enc: Encoding)
    requires Spells(x, s, enc) && Spells(y, t, enc)
    ensures Spells(x + y, s + t, enc)
  {
    hide Alphabet;
  }

  lemma GroupSpells(d: bytes) returns (y: seq<nat>)
    requires 1 <= |d| <= 3
    ensures Spells(y, Group(d, Url), Url) && |y| == |d| + 1
    ensures |d| == 1 ==> (y[0] * 64 + y[1]) * 4096 == Word(d)
    ensures |d| == 2 ==> ((y[0] * 64 + y[1]) * 64 + y[2]) * 64 == Word(d)
    ensures |d| == 3 ==> ((y[0] * 64 + y[1]) * 64 + y[2]) * 64 + y[3] == Word(d)
  {
    hide Alphabet, Digit, Word;
    var w := Word(d);
    var x := [w / 262144, w / 4096 % 64, w / 64 % 64, w % 64];
    Digits(w);
    WordTail(d);
    DigitIs(x[0], Url);
    DigitIs(x[1], Url);
    DigitIs(x[2], Url);
    DigitIs(x[3], Url);
    y := x[..|d| + 1];
  }

  /** The bits that the last digit of an encoding adds behind the bytes: none, four or two. */
  function Spare(n: nat): nat {
    if n % 3 == 0 then 1 else if n % 3 == 1 then 16 else 4
  }

  /** What the URL encoding of any byte string is: the bytes, read as one number, spelt with base 64 digits in the
      alphabet's order, with zeros in the spare bits of the last digit. */
  lemma {:induction false} EncodingIsNumber(d: bytes) returns (x: seq<nat>)
    ensures Spells(x, Encode(d, Url), Url)
    ensures Number(x, 64) == Number(d, 256) * Spare(|d|)
    decreases |d|
  {
    hide Group, Alphabet, Encode, Spells, Number, Word;
    if d == [] {
      x := [];
      EncodeNone(Url);
      NothingSpelt();
    } else {
      var n := (|d| - 1) / 3 * 3;
      var front, last := d[..n], d[n..];
      assert d == front + last;
      EncodeAppend(front, last, Url);
      EncodeLast(last);
      var x' := EncodingIsNumber(front);
      var y := GroupSpells(last);
      x := x' + y;
      SpellsAppend(x', Encode(front, Url), y, Group(last, Url), Url);
      NumbersMatch(front, last, x', y);
    }
  }

  lemma NothingSpelt()
    ensures Spells([], "", Url) && Number([], 64) == 0 && Number([], 256) == 0
  {
  }

  lemma EncodeLast(d: bytes)
    requires 1 <= |d| <= 3
    ensures Encode(d, Url) == Group(d, Url)
  {
    assert Encode(Rest(d), Url) == "";
  }

  lemma NumbersMatch(front: bytes, last: bytes, x: seq<nat>, y: seq<nat>)
    requires 1 <= |last| <= 3 && |y| == |last| + 1 && |front| % 3 == 0
    requires Number(x, 64) == Number(front, 256)
    requires |last| == 1 ==> (y[0] * 64 + y[1]) * 4096 == Word(last)
    requires |last| == 2 ==> ((y[0] * 64 + y[1]) * 64 + y[2]) * 64 == Word(last)
    requires |last| == 3 ==> ((y[0] * 64 + y[1]) * 64 + y[2]) * 64 + y[3] == Word(last)
    ensures Number(x + y, 64) == Number(front + last, 256) * Spare(|front| + |last|)
  {
    hide Number, Spare, Word;
    SpareAfter(|front|, |last|);
    WordIs(last);
    if |last| == 3 {
      MatchThree(front, last[0], last[1], last[2], x, y[0], y[1], y[2], y[3]);
      assert last == [last[0], last[1], last[2]] && y == [y[0], y[1], y[2], y[3]];
    } else if |last| == 2 {
      MatchTwo(front, last[0], last[1], x, y[0], y[1], y[2]);
      assert last == [last[0], last[1]] && y == [y[0], y[1], y[2]];
    } else {
      MatchOne(front, last[0], x, y[0], y[1]);
      assert last == [last[0]] && y == [y[0], y[1]];
    }
  }

  lemma SpareAfter(n: nat, r: nat)
    requires n % 3 == 0 && 1 <= r <= 3
    ensures Spare(n + r) == if r == 3 then 1 else if r == 2 then 4 else 16
  {
  }

  lemma WordIs(d: bytes)
    requires 1 <= |d| <= 3
    ensures |d| == 1 ==> Word(d) == d[0] as int * 65536
    ensures |d| == 2 ==> Word(d) == d[0] as int * 65536 + d[1] as int * 256
    ensures |d| == 3 ==> Word(d) == d[0] as int * 65536 + d[1] as int * 256 + d[2] as int
  {
  }

  lemma MatchThree(front: seq<nat>, a: nat, b: nat, c: nat, x: seq<nat>, y0: nat, y1: nat, y2: nat, y3: nat)
    requires Number(x, 64) == Number(front, 256) && ((y0 * 64 + y1) * 64 + y2) * 64 + y3 == a * 65536 + b * 256 + c
    ensures Number(x + [y0, y1, y2, y3], 64) == Number(front + [a, b, c], 256)
  {
    hide Number;
    NumberThree(front, a, b, c, 256);
    NumberFour(x, y0, y1, y2, y3, 64);
  }

  lemma MatchTwo(front: seq<nat>, a: nat, b: nat, x: seq<nat>, y0: nat, y1: nat, y2: nat)
    requires Number(x, 64) == Number(front, 256) && ((y0 * 64 + y1) * 64 + y2) * 64 == a * 65536 + b * 256
    ensures Number(x + [y0, y1, y2], 64) == Number(front + [a, b], 256) * 4
  {
    hide Number;
    NumberTwo(front, a, b, 256);
    NumberThree(x, y0, y1, y2, 64);
  }

  lemma MatchOne(front: seq<nat>, a: nat, x: seq<nat>, y0: nat, y1: nat)
    requires Number(x, 64) == Number(front, 256) && (y0 * 64 + y1) * 4096 == a * 65536
    ensures Number(x + [y0, y1], 64) == Number(front + [a], 256) * 16
  {
    hide Number;
    NumberSnoc(front, a, 256);
    NumberTwo(x, y0, y1, 64);
  }

  /** The other two encodings are the URL encoding in the standard alphabet, filled up: correctly by the
      mechanism's encoder, and in non-URL mode with "=A" when one byte is left over. */
  function InStandard(s: string): (r: string)
    ensures |r| == |s| && forall i :: 0 <= i < |s| ==> r[i] == if s[i] == '-' then '+' else if s[i] == '_' then '/' else s[i]
  {
    seq(|s|, i requires 0 <= i < |s| => if s[i] == '-' then '+' else if s[i] == '_' then '/' else s[i])
  }

  lemma InStandardAppend(a: string, b: string)
    ensures InStandard(a + b) == InStandard(a) + InStandard(b)
  {
  }

  function Filler(n: nat, enc: Encoding): string {
    if n % 3 == 0 || enc.Url? then "" else if n % 3 == 2 then "=" else if enc.Padded? then "==" else "=A"
  }

  lemma FillerRepeats(n: nat, enc: Encoding)
    ensures n >= 3 ==> Filler(n - 3, enc) == Filler(n, enc)
    ensures Filler(0, enc) == ""
  {
  }

  lemma GroupFilled(d: bytes, enc: Encoding)
    requires 1 <= |d| && !enc.Url?
    ensures Group(d, enc) == InStandard(Group(d, Url)) + Filler(if |d| >= 3 then 0 else |d|, enc)
  {
    WordTail(d);
    hide Word;
  }

  lemma {:induction false} EncodingIsFilled(d: bytes, enc: Encoding)
    requires !enc.Url?
    ensures Encode(d, enc) == InStandard(Encode(d, Url)) + Filler(|d|, enc)
    decreases |d|
  {
    hide Group, Encode, InStandard, Filler;
    FillerRepeats(|d|, enc);
    if d == [] {
      EncodeNone(enc);
      EncodeNone(Url);
      assert InStandard("") == "";
    } else {
      EncodeUnfolds(d, enc);
      EncodeUnfolds(d, Url);
      GroupFilled(d, enc);
      EncodingIsFilled(Rest(d), enc);
      InStandardAppend(Group(d, Url), Encode(Rest(d), Url));
      if |d| < 3 {
        EncodeNone(Url);
        assert InStandard("") == "";
      }
    }
  }

  // ----- malformed padding -----

  /** The strings on which the decoder's cursor would step over the terminating NUL. */
  predicate Overruns(s: string) {
    |s| % 4 == 2 && s[|s| - 1] == '=' && forall i :: 0 <= i < |s| - 1 ==> Pos(s[i]).Some?
  }

  /** A token without padding is four digits; with padding, or cut short, nothing follows it. */
  lemma TokenOutcome(s: string)
    requires s != "" && s[0] != '='
    ensures TokenDecode(s).Some? ==> var m := TokenDecode(s).value.0;
            && Pos(s[0]).Some?
            && (m == 0 ==> |s| >= 4 && forall i :: 0 <= i < 4 ==> Pos(s[i]).Some?)
            && (m > 0 && 4 - m < |s| ==> s[4 - m] == '=')
            && (4 - m > |s| ==> |s| == 2 && s[1] == '=')
            && (|s| % 4 == 2 && Overruns(s) ==> |s| == 2 || m == 0)
    ensures |s| == 2 && s[1] == '=' && Pos(s[0]).Some? ==> TokenDecode(s).Some? && TokenDecode(s).value.0 == 1
    ensures Overruns(s) ==> TokenDecode(s).Some?
  {
  }

  lemma OverrunsShift(s: string)
    requires |s| >= 4 && forall i :: 0 <= i < 4 ==> Pos(s[i]).Some?
    ensures Overruns(s[4..]) <==> Overruns(s)
  {
  }

  /** The cursor runs off the end exactly on a final token of one digit and one '='. */
  lemma {:induction false} OverrunExactly(s: string)
    ensures Decode(s) == Err(CursorOverrun) <==> Overruns(s)
    decreases |s|
  {
    assert Pos('=').None?;
    if s == "" || s[0] == '=' {
    } else {
      hide TokenDecode, Pos, WordBytes;
      var t := TokenDecode(s);
      TokenOutcome(s);
      if t.Some? && t.value.0 == 0 {
        OverrunExactly(s[4..]);
        OverrunsShift(s);
      } else if t.Some? && 4 - t.value.0 <= |s| {
        DecodeStop(s[4 - t.value.0..]);
      }
    }
  }

  // ----- texts that decode alike -----

  /** What turns an unpadded encoding of n characters into one that the decoder stops in. */
  function Padding(n: nat): string {
    if n % 4 == 2 then "==" else "="
  }

  lemma TokenIsPrefix(s: string, t: string)
    requires |s| >= 4 && |t| >= 4 && s[..4] == t[..4]
    ensures TokenDecode(s) == TokenDecode(t)
  {
    assert forall i :: 0 <= i < 4 ==> s[i] == s[..4][i] == t[..4][i] == t[i];
  }

  /** A short final token reads the same with its padding spelt out. */
  lemma ShortToken(s: string, junk: string)
    requires 2 <= |s| <= 3 && '=' !in s && TokenDecode(s).Some?
    ensures TokenDecode(s + Padding(|s|) + junk) == TokenDecode(s) && TokenDecode(s).value.0 == 4 - |s|
  {
    var x := seq(4, i => if 0 <= i < |s| && Pos(s[i]).Some? then Pos(s[i]).value else 0);
    var t := s + Padding(|s|) + junk;
    assert forall i :: 0 <= i < |s| ==> t[i] == s[i];
    TokenDigits(s);
    TokenOfDigits(s, |s|, x);
    TokenOfDigits(t[..4], |s|, x);
    TokenIsPrefix(t[..4], t);
  }

  lemma TokenDigits(s: string)
    requires TokenDecode(s).Some? && '=' !in s
    ensures forall i :: 0 <= i < Min(|s|, 4) ==> Pos(s[i]).Some?
    ensures |s| >= 4 ==> TokenDecode(s).value.0 == 0
  {
  }

  lemma PaddedTail(s: string, junk: string)
    requires |s| >= 4
    ensures var t := s + Padding(|s|) + junk;
            s[..4] == t[..4] && t[4..] == s[4..] + Padding(|s[4..]|) + junk && t[0] == s[0]
  {
  }

  lemma DecodeToken(s: string)
    requires s != "" && s[0] != '=' && TokenDecode(s).Some? && 4 - TokenDecode(s).value.0 <= |s|
    ensures var t := TokenDecode(s).value;
            Decode(s) == Prepend(WordBytes(t.0, t.1), Decode(s[4 - t.0..]))
  {
    hide TokenDecode, WordBytes;
  }

  lemma DecodesToken(s: string)
    requires s != "" && '=' !in s && Decode(s).Ok?
    ensures s[0] != '=' && TokenDecode(s).Some? && 4 - TokenDecode(s).value.0 <= |s|
  {
    hide TokenDecode, WordBytes;
  }

  /** The decoder stops at '=': after an unpadded text, padding and whatever follows it are not read. */
  lemma {:induction false} PaddingIgnored(s: string, junk: string)
    requires '=' !in s && Decode(s).Ok?
    ensures Decode(s + Padding(|s|) + junk) == Decode(s)
    decreases |s|
  {
    hide TokenDecode, WordBytes, Decode;
    var t := s + Padding(|s|) + junk;
    if s == "" {
      DecodeStop(t);
      DecodeStop(s);
    } else {
      DecodesToken(s);
      DecodeToken(s);
      if |s| >= 4 {
        PaddedTail(s, junk);
        TokenIsPrefix(s, t);
        TokenDigits(s);
        DecodeToken(t);
        PaddingIgnored(s[4..], junk);
      } else {
        ShortToken(s, junk);
        DecodeToken(t);
        DecodeStop(t[|s|..]);
        DecodeStop(s[|s|..]);
      }
    }
  }
}
