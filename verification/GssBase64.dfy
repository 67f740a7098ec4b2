/** The mechanism's own base64 codec (mech_browserid/util_base64.c): always padded, and with a
    decoder that works in 32-bit unsigned arithmetic. */
module GssBase64 {
  import opened Wrappers
  import opened Base64

  /** INT_MAX / 4 */
  const MAX_SIZE: nat := 0x1fff_ffff

  const DECODE_ERROR: nat := 0xffff_ffff

  // ----- encoding -----

  /** One iteration of the encoder's loop. */
  method StorePadded(data: bytes, i: nat, s: array<char>, p: nat)
    requires i < |data| && p + 4 <= s.Length
    modifies s
    ensures s[p..p + 4] == Stored(data[i..], Padded)
    ensures s[..p] == old(s[..p])
  {
    hide Digit;
    var size, k := |data|, i;
    var c: nat := data[k];
    k := k + 1;
    c := c * 256;
    if k < size { c := c + data[k]; }
    k := k + 1;
    c := c * 256;
    if k < size { c := c + data[k]; }
    k := k + 1;
    assert c == Word(data[i..]);
    s[p] := Digit(c / 262144, Padded);
    s[p + 1] := Digit(c / 4096 % 64, Padded);
    s[p + 2] := Digit(c / 64 % 64, Padded);
    s[p + 3] := Digit(c % 64, Padded);
    if k > size {
      s[p + 3] := '=';
    }
    if k > size + 1 {
      s[p + 2] := '=';
    }
  }

  /** `base64Encode`; None stands for the result -1. */
  method Encode64(data: bytes) returns (r: Option<string>)
    ensures r == if |data| > MAX_SIZE then None else Some(Encode(data, Padded))
  {
    hide Stored, StoredAll, Encode;
    if |data| > MAX_SIZE {
      return None;
    }
    ExpandIsEnough(|data|);
    var s := new char[Expand(|data|)];
    ghost var all := StoredAll(data, Padded);
    var p, i := 0, 0;
    ghost var k := 0;
    while i < |data|
      invariant i == 3 * k && p == 4 * k && i < |data| + 3
      invariant p <= |all| && s[..p] == all[..p]
    {
      StoredAt(data, k, Padded);
      StorePadded(data, i, s, p);
      assert s[..p + 4] == s[..p] + s[p..p + 4];
      assert all[..p + 4] == all[..p] + all[p..p + 4];
      p, i, k := p + 4, i + 3, k + 1;
    }
    s[p] := NUL;
    assert s[..p + 1] == all + [NUL];
    var n := StrLen(s);
    StoredIsEncoded(data, Padded);
    PrefixCString(s[..p + 1], s[..]);
    return Some(s[..n]);
  }

  // ----- decoding -----

  /** The position in the standard alphabet, -1 for any other character. */
  function StandardPos(c: char): (i: int)
    ensures -1 <= i < 64
  {
    if c == '-' || c == '_' || Pos(c).None? then -1 else Pos(c).value
  }

  /** The rounds of `token_decode` from round i on: padding seen, and the value before it is
      reduced to 32 bits. A character outside the alphabet counts as -1. */
  function Accumulate(s: string, p: nat, i: nat, val: int, marker: nat): Option<(nat, int)>
    requires p + 4 <= |s| && i <= 4
    decreases 4 - i
  {
    if i == 4 then Some((marker, val))
    else if s[p + i] == '=' then Accumulate(s, p, i + 1, val * 64, marker + 1)
    else if marker > 0 then None
    else Accumulate(s, p, i + 1, val * 64 + StandardPos(s[p + i]), marker)
  }

  /** `(marker << 24) | val`: a negative sum has wrapped to a value whose top byte is full. */
  function Combine(marker: nat, val: int): nat
    requires marker <= 2 && -0x100_0000 <= val < 0x100_0000
  {
    if val >= 0 then marker * 0x100_0000 + val else 0x1_0000_0000 + val
  }

  lemma {:induction false} AccumulateBound(s: string, p: nat, i: nat, val: int, marker: nat)
    requires p + 4 <= |s| && i <= 4
    requires i == 0 ==> val == 0
    requires i == 1 ==> -1 <= val < 64
    requires i == 2 ==> -65 <= val < 4096
    requires i == 3 ==> -4161 <= val < 262144
    requires i == 4 ==> -266305 <= val < 16777216
    ensures Accumulate(s, p, i, val, marker).Some? ==> -266305 <= Accumulate(s, p, i, val, marker).value.1 < 16777216
    decreases 4 - i
  {
    if i < 4 {
      if s[p + i] == '=' {
        AccumulateBound(s, p, i + 1, val * 64, marker + 1);
      } else if marker == 0 {
        AccumulateBound(s, p, i + 1, val * 64 + StandardPos(s[p + i]), marker);
      }
    }
  }

  /** `token_decode`. */
  function Token(s: string, p: nat): (val: nat)
    requires p <= |s|
    ensures val <= DECODE_ERROR
    ensures val < DECODE_ERROR ==> p + 4 <= |s|
  {
    if p + 4 > |s| then DECODE_ERROR
    else
      var r := Accumulate(s, p, 0, 0, 0);
      AccumulateBound(s, p, 0, 0, 0);
      if r.None? || r.value.0 > 2 then DECODE_ERROR else Combine(r.value.0, r.value.1)
  }

  predicate Starts(s: string, p: nat) {
    p < |s| && (s[p] == '=' || StandardPos(s[p]) >= 0)
  }

  /** Where the cursor stands after a token, which a line feed may follow. */
  function After(s: string, p: nat): (p': nat)
    requires p + 4 <= |s|
    ensures p + 4 <= p' <= |s|
  {
    if p + 4 < |s| && s[p + 4] == '\n' then p + 5 else p + 4
  }

  /** The one to three bytes of a token's value. */
  function Octets64(val: nat): (b: bytes)
    ensures 1 <= |b| <= 3
  {
    var marker := val / 0x100_0000 % 256;
    [val / 65536 % 256] + (if marker < 2 then [val / 256 % 256] else []) + (if marker < 1 then [val % 256] else [])
  }

  /** `base64Decode` from index p on; None stands for the result -1. */
  function DecodeFrom(s: string, p: nat): Option<bytes>
    requires p <= |s|
    decreases |s| - p
  {
    if !Starts(s, p) then Some([])
    else
      var val := Token(s, p);
      if val == DECODE_ERROR then None
      else
        var rest := DecodeFrom(s, After(s, p));
        if rest.None? then None else Some(Octets64(val) + rest.value)
  }

  /** `token_decode`. */
  method TokenDecode64(s: string, p: nat) returns (val: nat)
    requires p <= |s|
    ensures val == Token(s, p)
  {
    hide StandardPos, Combine;
    if p + 4 > |s| {
      return DECODE_ERROR;
    }
    AccumulateBound(s, p, 0, 0, 0);
    var acc: int, marker: nat := 0, 0;
    for i := 0 to 4
      invariant Accumulate(s, p, i, acc, marker) == Accumulate(s, p, 0, 0, 0)
    {
      acc := acc * 64;
      if s[p + i] == '=' {
        marker := marker + 1;
      } else if marker > 0 {
        return DECODE_ERROR;
      } else {
        acc := acc + StandardPos(s[p + i]);
      }
    }
    if marker > 2 {
      return DECODE_ERROR;
    }
    return Combine(marker, acc);
  }

  /** The one to three bytes of a token. */
  method StoreOctets(data: array<byte>, q: nat, val: nat) returns (q': nat)
    requires q + 3 <= data.Length
    modifies data
    ensures q' == q + |Octets64(val)|
    ensures data[..q'] == old(data[..q]) + Octets64(val) && data[q'..] == old(data[..])[q'..]
  {
    var marker := val / 0x100_0000 % 256;
    data[q] := val / 65536 % 256;
    q' := q + 1;
    if marker < 2 {
      data[q'] := val / 256 % 256;
      q' := q' + 1;
    }
    if marker < 1 {
      data[q'] := val % 256;
      q' := q' + 1;
    }
  }

  /** `base64Decode` into the caller's buffer, which must have three bytes for every four characters. */
  method Decode64(s: string, data: array<byte>) returns (r: Option<nat>)
    requires data.Length >= |s| / 4 * 3
    modifies data
    ensures var spec := DecodeFrom(s, 0);
            && r == (if spec.None? then None else Some(|spec.value|))
            && (spec.Some? ==>
                  |spec.value| <= data.Length && data[..|spec.value|] == spec.value
                  && data[|spec.value|..] == old(data[..])[|spec.value|..])
  {
    hide Starts, Octets64, Accumulate;
    var p, q := 0, 0;
    ghost var spec := DecodeFrom(s, 0);
    assert spec.Some? ==> [] + spec.value == spec.value;
    assert data[..0] == [];
    while Starts(s, p)
      invariant 0 <= p <= |s| && 0 <= q <= data.Length && q <= p / 4 * 3
      invariant spec == (var rest := DecodeFrom(s, p); if rest.None? then None else Some(data[..q] + rest.value))
      invariant data[q..] == old(data[..])[q..]
      decreases |s| - p
    {
      var val := TokenDecode64(s, p);
      if val == DECODE_ERROR {
        return None;
      }
      ghost var rest := DecodeFrom(s, After(s, p));
      assert rest.Some? ==> data[..q] + (Octets64(val) + rest.value) == data[..q] + Octets64(val) + rest.value;
      q := StoreOctets(data, q, val);
      p := After(s, p);
    }
    assert data[..q] + [] == data[..q];
    return Some(q);
  }

  /** `base64Valid` holds exactly when `base64Decode` does not fail. */
  method Valid64(s: string) returns (valid: bool)
    ensures valid == DecodeFrom(s, 0).Some?
  {
    hide Token, Starts, After, Octets64;
    var p := 0;
    while Starts(s, p)
      invariant p <= |s|
      invariant DecodeFrom(s, p).Some? == DecodeFrom(s, 0).Some?
      decreases |s| - p
    {
      var val := TokenDecode64(s, p);
      if val == DECODE_ERROR {
        return false;
      }
      p := After(s, p);
    }
    return true;
  }

  // ----- tokens without padding -----

  /** The decoder knows the characters of the standard alphabet, by their place, and takes any other for -1. */
  lemma StandardPosIs(c: char)
    ensures StandardPos(c) >= 0 <==> c in STANDARD_ALPHABET
    ensures StandardPos(c) >= 0 ==> STANDARD_ALPHABET[StandardPos(c)] == c
    ensures StandardPos(c) < 0 ==> StandardPos(c) == -1
  {
    PosIs(c);
    if c in STANDARD_ALPHABET {
      var i :| 0 <= i < 64 && STANDARD_ALPHABET[i] == c;
      DigitIs(i, Standard);
      StandardDigit(i);
      assert Digit(i, Standard) == Digit(i, Padded);
    }
    if StandardPos(c) >= 0 {
      DigitIs(Pos(c).value, Url);
      DigitIs(Pos(c).value, Standard);
    }
  }

  /** Four characters without padding, of whatever alphabet, are read as one number; one that is negative has wrapped. */
  lemma TokenExactly(s: string, p: nat)
    requires p + 4 <= |s| && '=' !in s[p..p + 4]
    ensures var value := ((StandardPos(s[p]) * 64 + StandardPos(s[p + 1])) * 64 + StandardPos(s[p + 2])) * 64 + StandardPos(s[p + 3]);
            Token(s, p) == if value >= 0 then value else 0x1_0000_0000 + value
  {
    hide StandardPos;
    var tok := s[p..p + 4];
    assert tok[0] == s[p] && tok[1] == s[p + 1] && tok[2] == s[p + 2] && tok[3] == s[p + 3];
    AccumulateBound(s, p, 0, 0, 0);
    assert Accumulate(s, p, 0, 0, 0) == Accumulate(s, p, 1, StandardPos(s[p]), 0);
    assert Accumulate(s, p, 1, StandardPos(s[p]), 0) == Accumulate(s, p, 2, StandardPos(s[p]) * 64 + StandardPos(s[p + 1]), 0);
  }

  // ----- round trip -----

  lemma StandardDigit(i: nat)
    requires i < 64
    ensures StandardPos(Digit(i, Padded)) == i
  {
  }

  /** Four characters, of which the last m are padding. */
  lemma AccumulateDigits(s: string, p: nat, m: nat, x: seq<nat>)
    requires p + 4 <= |s| && m <= 2 && |x| == 4
    requires forall i :: 0 <= i < 4 - m ==> s[p + i] != '=' && StandardPos(s[p + i]) == x[i]
    requires forall i :: 4 - m <= i < 4 ==> s[p + i] == '=' && x[i] == 0
    ensures Accumulate(s, p, 0, 0, 0) == Some((m, ((x[0] * 64 + x[1]) * 64 + x[2]) * 64 + x[3]))
  {
  }

  lemma TokenOfPadded(s: string, p: nat, d: bytes)
    requires 0 < |d| && p + 4 <= |s| && s[p..p + 4] == Group(d, Padded)
    ensures Token(s, p) == (if |d| >= 3 then 0 else 3 - |d|) * 0x100_0000 + Word(d)
  {
    hide Digit, StandardPos, Accumulate;
    var w, m := Word(d), if |d| >= 3 then 0 else 3 - |d|;
    var x := [w / 262144, w / 4096 % 64, w / 64 % 64, w % 64];
    var g := Group(d, Padded);
    assert forall i :: 0 <= i < 4 ==> s[p + i] == g[i];
    Digits(w);
    WordTail(d);
    StandardDigit(x[0]);
    StandardDigit(x[1]);
    StandardDigit(x[2]);
    StandardDigit(x[3]);
    AccumulateDigits(s, p, m, x);
  }

  lemma TopByte(a: nat, b: byte, c: byte)
    ensures var w := a * 65536 + b * 256 + c;
            w / 65536 == a && w / 256 % 256 == b && w % 256 == c
  {
    var w := a * 65536 + b * 256 + c;
    assert w / 256 == a * 256 + b;
  }

  lemma OctetsOfWord(m: nat, w: nat)
    requires m <= 2 && w < 0x100_0000
    ensures Octets64(m * 0x100_0000 + w) == WordBytes(m, w)
  {
    var a, b, c := w / 65536, w / 256 % 256, w % 256;
    assert w == a * 65536 + b * 256 + c;
    var val := m * 0x100_0000 + w;
    assert val == (m * 256 + a) * 65536 + b * 256 + c;
    TopByte(m * 256 + a, b, c);
    assert (m * 256 + a) % 256 == a;
    assert val / 0x100_0000 == m;
  }

  /** An encoding splits after its first group. */
  lemma SplitFirst(s: string, p: nat, d: bytes)
    requires 0 < |d| && p <= |s| && s[p..] == Encode(d, Padded)
    ensures p + 4 <= |s| && s[p..p + 4] == Group(d, Padded) && s[p + 4..] == Encode(Rest(d), Padded)
  {
    hide Group;
    GroupLength(d, Padded);
    assert s[p..][..4] == Group(d, Padded) && s[p..][4..] == Encode(Rest(d), Padded);
  }

  /** The first token of an encoding. */
  lemma FirstToken(s: string, p: nat, d: bytes)
    requires 0 < |d| && p <= |s| && s[p..] == Encode(d, Padded)
    ensures p + 4 <= |s| && Starts(s, p) && s[p + 4..] == Encode(Rest(d), Padded)
    ensures Token(s, p) == (if |d| >= 3 then 0 else 3 - |d|) * 0x100_0000 + Word(d)
    ensures After(s, p) == p + 4
  {
    hide Token, Word, Group, Encode, StandardPos;
    SplitFirst(s, p, d);
    TokenOfPadded(s, p, d);
    FirstIsDigit(d);
    assert s[p] == s[p..][0];
    if Rest(d) == [] {
      assert Encode(Rest(d), Padded) == "" by {
        EncodedLength(Rest(d), Padded);
      }
    } else {
      FirstIsDigit(Rest(d));
      assert s[p + 4] == s[p + 4..][0];
    }
  }

  lemma {:induction false} RoundTripFrom(s: string, p: nat, d: bytes)
    requires p <= |s| && s[p..] == Encode(d, Padded)
    ensures DecodeFrom(s, p) == Some(d)
    decreases |d|
  {
    hide Token, Octets64, Word, WordBytes, Group, Starts, After;
    if d == [] {
      assert !Starts(s, p) by {
        AtEnd(s, p);
      }
    } else {
      FirstToken(s, p, d);
      OctetsOfWord(if |d| >= 3 then 0 else 3 - |d|, Word(d));
      WordBytesOfWord(d);
      RoundTripFrom(s, p + 4, Rest(d));
      assert d[..Min(|d|, 3)] + Rest(d) == d;
    }
  }

  lemma AtEnd(s: string, p: nat)
    requires p <= |s| && s[p..] == ""
    ensures !Starts(s, p)
  {
  }

  lemma FirstIsDigit(d: bytes)
    requires 0 < |d|
    ensures |Encode(d, Padded)| > 0 && Encode(d, Padded)[0] == Group(d, Padded)[0]
    ensures StandardPos(Group(d, Padded)[0]) >= 0 && Group(d, Padded)[0] != '\n'
  {
  }

  /** One byte string, two encoders, two decoders: the padded text decodes to the same bytes under
      the mechanism's decoder and under `_BIDBase64UrlDecode`, which also reads the URL form. */
  lemma CrossCodec(d: bytes)
    ensures DecodeFrom(Encode(d, Padded), 0) == Some(d)
    ensures Decode(Encode(d, Padded)) == Ok(d) && Decode(Encode(d, Url)) == Ok(d)
  {
    hide Encode, Decode, DecodeFrom;
    var s := Encode(d, Padded);
    assert s[0..] == s;
    RoundTripFrom(s, 0, d);
    RoundTrip(d, Padded);
    RoundTrip(d, Url);
  }

  /** The padded encoding with line feeds after the groups that `breaks` names. */
  function WithBreaks(d: bytes, breaks: seq<bool>): string
    decreases |d|
  {
    if d == [] then ""
    else Group(d, Padded) + (if breaks != [] && breaks[0] then "\n" else "") + WithBreaks(Rest(d), if breaks == [] then [] else breaks[1..])
  }

  lemma UnbrokenRest(s: string, p: nat, d: bytes, breaks: seq<bool>)
    requires 0 < |d| && p <= |s| && s[p..] == WithBreaks(d, breaks)
    ensures p + 4 <= |s| && s[p..p + 4] == Group(d, Padded)
    ensures After(s, p) <= |s| && s[After(s, p)..] == WithBreaks(Rest(d), if breaks == [] then [] else breaks[1..])
  {
    hide Group, StandardPos;
    var rest := WithBreaks(Rest(d), if breaks == [] then [] else breaks[1..]);
    var feed := if breaks != [] && breaks[0] then "\n" else "";
    GroupStarts(d);
    BreakStarts(Rest(d), if breaks == [] then [] else breaks[1..]);
    var t := s[p..];
    assert t == Group(d, Padded) + feed + rest;
    assert t[..4] == Group(d, Padded) && t[4..] == feed + rest;
    assert s[p..p + 4] == t[..4] && s[p + 4..] == t[4..];
    if feed != "" {
      assert s[p + 4] == s[p + 4..][0] == '\n';
      assert s[p + 5..] == s[p + 4..][1..] == rest;
    } else {
      assert p + 4 < |s| ==> s[p + 4] == s[p + 4..][0] == rest[0];
    }
  }

  /** Line feeds after any of the groups are skipped. */
  lemma {:induction false} BreaksAreSkipped(s: string, p: nat, d: bytes, breaks: seq<bool>)
    requires p <= |s| && s[p..] == WithBreaks(d, breaks)
    ensures DecodeFrom(s, p) == Some(d)
    decreases |d|
  {
    hide Token, Octets64, Word, WordBytes, Group, StandardPos, After, WithBreaks, Starts;
    if d == [] {
      NoBreaks(breaks);
      AtEnd(s, p);
    } else {
      UnbrokenRest(s, p, d, breaks);
      GroupStarts(d);
      TokenOfPadded(s, p, d);
      assert Starts(s, p) by {
        assert s[p] == s[p..p + 4][0];
        DigitStarts(s, p);
      }
      OctetsOfWord(if |d| >= 3 then 0 else 3 - |d|, Word(d));
      WordBytesOfWord(d);
      BreaksAreSkipped(s, After(s, p), Rest(d), if breaks == [] then [] else breaks[1..]);
      assert d[..Min(|d|, 3)] + Rest(d) == d;
    }
  }

  lemma NoBreaks(breaks: seq<bool>)
    ensures WithBreaks([], breaks) == ""
  {
  }

  lemma DigitStarts(s: string, p: nat)
    requires p < |s| && StandardPos(s[p]) >= 0
    ensures Starts(s, p)
  {
  }

  lemma GroupStarts(d: bytes)
    requires 0 < |d|
    ensures |Group(d, Padded)| == 4 && StandardPos(Group(d, Padded)[0]) >= 0 && Group(d, Padded)[0] != '\n'
  {
  }

  lemma BreakStarts(d: bytes, breaks: seq<bool>)
    ensures var s := WithBreaks(d, breaks); (s == "" <==> d == []) && (s != "" ==> s[0] != '\n')
  {
    hide Group, StandardPos;
    if d != [] {
      GroupStarts(d);
    }
  }
}
