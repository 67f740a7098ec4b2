/** GSS service principal names: `_BIDHostifySpn` (bid_util.c) and the host alias rule of
    `_BIDValidateAudienceHostAlias` (bid_verify.c). */
module Spn {
  import opened Wrappers

  /** `tolower` in the C locale. */
  function LowerChar(c: char): char {
    if 'A' <= c <= 'Z' then c + 32 as char else c
  }

  function Lower(s: string): (r: string)
    ensures |r| == |s| && forall i :: 0 <= i < |s| ==> r[i] == LowerChar(s[i])
  {
    seq(|s|, i requires 0 <= i < |s| => LowerChar(s[i]))
  }

  /** Lower case is the small letter in the place of a capital one, and nothing else changes. */
  lemma LowerIs(c: char)
    ensures forall i :: 0 <= i < |UPPER| && UPPER[i] == c ==> LowerChar(c) == LOWER[i]
    ensures c !in UPPER ==> LowerChar(c) == c
  {
    Letters();
    if 'A' <= c <= 'Z' {
      var i := c as int - 'A' as int;
      assert UPPER[i] == c;
    } else {
      assert c !in UPPER;
    }
  }

  lemma Letters()
    ensures |UPPER| == |LOWER| == 26
    ensures forall i :: 0 <= i < 26 ==> UPPER[i] == ('A' as int + i) as char && LOWER[i] == ('a' as int + i) as char
  {
  }

  /** `strcasecmp` in the C locale. */
  predicate CaseEqual(a: string, b: string) {
    Lower(a) == Lower(b)
  }

  /** One character, or the capital and the small form of one letter. */
  ghost predicate SameLetter(a: char, b: char) {
    a == b || exists i :: 0 <= i < |UPPER| && a in {UPPER[i], LOWER[i]} && b in {UPPER[i], LOWER[i]}
  }

  lemma LetterExactly(a: char, b: char)
    ensures LowerChar(a) == LowerChar(b) <==> SameLetter(a, b)
  {
    LowerIs(a);
    LowerIs(b);
    Letters();
    if LowerChar(a) == LowerChar(b) && a != b {
      var i := LowerChar(a) as int - 'a' as int;
      assert a in {UPPER[i], LOWER[i]};
    }
  }

  lemma CaseEqualExactly(a: string, b: string)
    ensures CaseEqual(a, b) <==> |a| == |b| && forall i :: 0 <= i < |a| ==> SameLetter(a[i], b[i])
  {
    hide LowerChar, SameLetter;
    forall i | 0 <= i < |a| && i < |b|
      ensures LowerChar(a[i]) == LowerChar(b[i]) <==> SameLetter(a[i], b[i])
    {
      LetterExactly(a[i], b[i]);
    }
    if CaseEqual(a, b) {
      assert forall i :: 0 <= i < |a| ==> Lower(a)[i] == Lower(b)[i];
    }
  }

  /** The index after the first '/' from q on that no backslash escapes; none if the string
      or an unescaped '@' comes first. */
  function HostStart(s: string, q: nat, escaped: bool): (start: Option<nat>)
    requires q <= |s|
    ensures start.Some? ==> start.value <= |s|
    decreases |s| - q
  {
    if q == |s| then None
    else if s[q] == '\\' then HostStart(s, q + 1, true)
    else if escaped then HostStart(s, q + 1, false)
    else if s[q] == '/' then Some(q + 1)
    else if s[q] == '@' then None
    else HostStart(s, q + 1, false)
  }

  /** The index of the first unescaped '/' or '@' from q on, or the end. */
  function HostEnd(s: string, q: nat, escaped: bool): (end: nat)
    requires q <= |s|
    ensures q <= end <= |s|
    decreases |s| - q
  {
    if q == |s| then q
    else if s[q] == '\\' then HostEnd(s, q + 1, true)
    else if !escaped && (s[q] == '/' || s[q] == '@') then q
    else HostEnd(s, q + 1, false)
  }

  function Hostify(spn: string): Result<string> {
    var start := HostStart(spn, 0, false);
    if start.None? then Err(BadAudience)
    else Ok("host/" + Lower(spn[start.value..HostEnd(spn, start.value, false)]))
  }

  /** `_BIDHostifySpn`: one scan finds and counts the host's characters, then a buffer of
      exactly that size is filled. */
  method HostifySpn(spn: string) returns (r: Result<string>)
    ensures r == Hostify(spn)
  {
    var start, cch: nat := -1, 0;
    var q, escape := 0, 0;
    while q < |spn|
      invariant 0 <= q <= |spn| && 0 <= escape
      invariant start == -1 ==> cch == 0 && HostStart(spn, q, escape > 0) == HostStart(spn, 0, false)
      invariant start != -1 ==> 0 < start && q == start + cch && HostStart(spn, 0, false) == Some(start)
      invariant start != -1 ==> HostEnd(spn, start, false) == HostEnd(spn, q, escape > 0)
    {
      if spn[q] == '\\' {
        escape := escape + 1;
      } else if escape != 0 {
        escape := 0;
      } else {
        if start == -1 && spn[q] == '/' {
          start := q + 1;
          q := q + 1;
          continue;
        } else if spn[q] == '/' || spn[q] == '@' {
          break;
        }
      }
      if start != -1 {
        cch := cch + 1;
      }
      q := q + 1;
    }
    if start == -1 {
      return Err(BadAudience);
    }
    var name := HostName(spn, start, cch);
    return Ok(name);
  }

  /** The second half of `_BIDHostifySpn`: the counted characters exactly fill the buffer. */
  method HostName(spn: string, start: nat, cch: nat) returns (name: string)
    requires start + cch <= |spn|
    ensures name == "host/" + Lower(spn[start..start + cch])
  {
    hide LowerChar;
    var buf := new char[5 + cch];
    buf[0], buf[1], buf[2], buf[3], buf[4] := 'h', 'o', 's', 't', '/';
    for i := 0 to cch
      invariant buf[..5] == "host/"
      invariant forall j :: 5 <= j < 5 + i ==> buf[j] == LowerChar(spn[start + j - 5])
    {
      buf[5 + i] := LowerChar(spn[start + i]);
    }
    assert buf[..] == "host/" + Lower(spn[start..start + cch]);
    return buf[..];
  }

  /** Lower-casing moves no separator and no escape: the host of `t`, which holds the host of
      `s` from `k` on, runs to the end of `t`. */
  lemma {:induction false} HostEndOfLower(s: string, q: nat, t: string, k: nat, escaped: bool)
    requires q <= |s| && k <= |t|
    requires HostEnd(s, q, escaped) - q == |t| - k
    requires forall j :: k <= j < |t| ==> t[j] == LowerChar(s[q + j - k])
    ensures HostEnd(t, k, escaped) == |t|
    decreases |s| - q
  {
    if k < |t| {
      HostEndOfLower(s, q + 1, t, k + 1, s[q] == '\\');
    }
  }

  /** Canonicalising twice is canonicalising once, whatever the escapes. */
  lemma HostifyIdempotent(spn: string)
    requires Hostify(spn).Ok?
    ensures Hostify(Hostify(spn).value) == Hostify(spn)
  {
    var start := HostStart(spn, 0, false).value;
    var host := spn[start..HostEnd(spn, start, false)];
    var t := "host/" + Lower(host);
    assert HostStart(t, 0, false) == HostStart(t, 1, false) == HostStart(t, 2, false)
        == HostStart(t, 3, false) == HostStart(t, 4, false) == Some(5);
    HostEndOfLower(spn, start, t, 5, false);
    assert t[5..|t|] == Lower(host);
    assert Lower(Lower(host)) == Lower(host);
  }

  /** `_BIDValidateAudienceHostAlias`. */
  function HostAlias(audience: string, asserted: string): (r: Result<()>)
  {
    if !("host/" <= asserted) then Err(BadAudience)
    else
      var host :- Hostify(audience);
      if asserted == host then Ok(()) else Err(BadAudience)
  }

  /** Whatever the alias rule accepts is the canonical form of the expected name and of itself. */
  lemma AliasIsCanonical(audience: string, asserted: string)
    ensures HostAlias(audience, asserted).Ok? <==> Hostify(audience) == Ok(asserted)
    ensures HostAlias(audience, asserted).Ok? ==> Hostify(asserted) == Ok(asserted)
  {
    if Hostify(audience).Ok? {
      HostifyIdempotent(audience);
    }
  }

  // ----- what the host is -----

  predicate Escaped(s: string, i: nat)
    requires i <= |s|
  {
    i > 0 && s[i - 1] == '\\'
  }

  /** A separator that no backslash stands before. */
  predicate Separates(s: string, i: nat) {
    i < |s| && (s[i] == '/' || s[i] == '@') && !Escaped(s, i)
  }

  /** The service ends at the first separator, which is a '/', and the host at the next one or at the end. */
  ghost predicate HostLies(s: string, start: nat, end: nat) {
    && 0 < start <= end <= |s|
    && Separates(s, start - 1) && s[start - 1] == '/' && (forall i: nat :: i < start - 1 ==> !Separates(s, i))
    && (end < |s| ==> Separates(s, end)) && (forall i: nat :: start <= i < end ==> !Separates(s, i))
  }

  lemma {:induction false} HostStartIs(s: string, q: nat)
    requires q <= |s| && forall i: nat :: i < q ==> !Separates(s, i)
    ensures var start := HostStart(s, q, Escaped(s, q));
            if start.Some? then
              && 0 < start.value && Separates(s, start.value - 1) && s[start.value - 1] == '/'
              && forall i: nat :: i < start.value - 1 ==> !Separates(s, i)
            else
              forall i: nat :: Separates(s, i) && (forall j: nat :: j < i ==> !Separates(s, j)) ==> s[i] == '@'
    decreases |s| - q
  {
    if q < |s| && !Separates(s, q) {
      HostStartIs(s, q + 1);
    }
  }

  lemma {:induction false} HostEndIs(s: string, q: nat)
    requires q <= |s|
    ensures var end := HostEnd(s, q, Escaped(s, q));
            (end < |s| ==> Separates(s, end)) && forall i: nat :: q <= i < end ==> !Separates(s, i)
    decreases |s| - q
  {
    if q < |s| && !Separates(s, q) {
      HostEndIs(s, q + 1);
    }
  }

  /** The canonical form of a name is "host/" and the host in lower case, and a name without a host has none. */
  lemma HostifyExactly(spn: string)
    ensures forall start: nat, end: nat :: HostLies(spn, start, end) ==> Hostify(spn) == Ok("host/" + Lower(spn[start..end]))
    ensures (forall start: nat, end: nat :: !HostLies(spn, start, end)) ==> Hostify(spn) == Err(BadAudience)
  {
    hide HostStart, HostEnd, Lower;
    HostStartIs(spn, 0);
    var start := HostStart(spn, 0, false);
    if start.Some? {
      HostEndIs(spn, start.value);
      assert HostLies(spn, start.value, HostEnd(spn, start.value, false));
    }
    forall start': nat, end': nat | HostLies(spn, start', end')
      ensures start.Some? && start' == start.value && end' == HostEnd(spn, start', false)
    {
      assert Separates(spn, start' - 1);
    }
  }
}
