/** Moving an established context between processes (mech_browserid/export_sec_context.c and
    import_sec_context.c; sections 2.2.8 and 2.2.9 of RFC 2743): a byte layout whose length is
    computed first, and a parser with a cursor and a count of remaining bytes. */
module Transfer {
  import opened Wrappers

  const U32_LIMIT: nat := 0x1_0000_0000
  const U64_LIMIT: nat := 0x1_0000_0000_0000_0000
  const VERSION: nat := 1
  const ESTABLISHED: nat := 0x20
  /** sizeof(queue): four ints, and twenty-two 64-bit words. */
  const QUEUE_SIZE: nat := 192

  /** The exported fields, as the bit patterns that travel. Names are what the name exporter makes of
      them; GSS_C_NO_NAME exports as nothing. */
  datatype Context = Context(state: nat, flags: nat, gssFlags: nat, mech: bytes, checksumType: nat, encryptionType: nat,
                             key: bytes, initiator: Option<bytes>, acceptor: Option<bytes>, expiry: nat, sendSeq: nat,
                             recvSeq: nat, queue: bytes)

  /** What the name importer accepts; the flag says that the name carries its mechanism. */
  type Names = (bytes, bool) -> bool

  /** GSS_BROWSERID_MECHANISM. A concrete mechanism appends an encryption type to it. */
  const MECHANISM: bytes := [0x2B, 0x06, 0x01, 0x04, 0x01, 0xA9, 0x4A, 0x18, 0x01]

  /** `gssBidIsConcreteMechanismOid`. */
  predicate IsConcrete(mech: bytes) {
    |mech| > |MECHANISM| && mech[..|MECHANISM|] == MECHANISM
  }

  datatype ImportError = Truncated | BadToken | Defective | BadMech | BadName
    /** The cursor would read past the end of the token. */
    | Overread

  datatype Imported<+T> = Done(value: T) | Failed(error: ImportError) {
    predicate IsFailure() {
      Failed?
    }

    function PropagateFailure<U>(): Imported<U>
      requires Failed?
    {
      Failed(error)
    }

    function Extract(): T
      requires Done?
    {
      value
    }
  }

  predicate IsInitiator(flags: nat) {
    flags % 2 == 1
  }

  // ----- numbers -----

  function U32(n: nat): (b: bytes)
    ensures |b| == 4
  {
    [n / 0x100_0000 % 256, n / 65536 % 256, n / 256 % 256, n % 256]
  }

  function U64(n: nat): (b: bytes)
    ensures |b| == 8
  {
    U32(n / U32_LIMIT) + U32(n % U32_LIMIT)
  }

  function Load32(s: bytes, p: nat): (n: nat)
    requires p + 4 <= |s|
    ensures n < U32_LIMIT
  {
    s[p] as int * 0x100_0000 + s[p + 1] as int * 65536 + s[p + 2] as int * 256 + s[p + 3] as int
  }

  function Load64(s: bytes, p: nat): nat
    requires p + 8 <= |s|
  {
    Load32(s, p) * U32_LIMIT + Load32(s, p + 4)
  }

  // ----- layout -----

  function Buffer(b: bytes): bytes {
    U32(|b|) + b
  }

  function NameOf(name: Option<bytes>): bytes {
    if name.Some? then name.value else []
  }

  function Head(x: Context): bytes {
    U32(VERSION) + U32(x.state) + U32(x.flags) + U32(x.gssFlags)
  }

  function KeyPart(x: Context): bytes {
    U32(x.checksumType) + U32(x.encryptionType) + Buffer(x.key)
  }

  function Tail(x: Context): bytes {
    U64(x.expiry) + U64(x.sendSeq) + U64(x.recvSeq) + x.queue
  }

  function Parts(x: Context): seq<bytes> {
    [Head(x), Buffer(x.mech), KeyPart(x), Buffer(NameOf(x.initiator)), Buffer(NameOf(x.acceptor)), Tail(x)]
  }

  function Concat(parts: seq<bytes>): bytes {
    if parts == [] then [] else parts[0] + Concat(parts[1..])
  }

  function Layout(x: Context): bytes {
    Concat(Parts(x))
  }

  /** The length that the exporter computes before it allocates. */
  function ComputedLength(x: Context): nat {
    16 + (4 + |x.mech|) + (12 + |x.key|) + (4 + |NameOf(x.initiator)|) + (4 + |NameOf(x.acceptor)|) + (24 + QUEUE_SIZE)
  }

  // ----- export -----

  method Store(buf: array<byte>, p: nat, b: bytes) returns (p': nat)
    requires p + |b| <= buf.Length
    modifies buf
    ensures p' == p + |b| && buf[..p'] == old(buf[..p]) + b
  {
    for i := 0 to |b|
      invariant forall j :: 0 <= j < p ==> buf[j] == old(buf[j])
      invariant forall j :: p <= j < p + i ==> buf[j] == b[j - p]
    {
      buf[p + i] := b[i];
    }
    p' := p + |b|;
  }

  method StoreBuffer(buf: array<byte>, p: nat, b: bytes) returns (p': nat)
    requires p + 4 + |b| <= buf.Length
    modifies buf
    ensures p' == p + 4 + |b| && buf[..p'] == old(buf[..p]) + Buffer(b)
  {
    hide U32;
    p' := Store(buf, p, U32(|b|));
    p' := Store(buf, p', b);
  }

  lemma LayoutIs(x: Context)
    ensures Layout(x) == Head(x) + Buffer(x.mech) + KeyPart(x) + Buffer(NameOf(x.initiator)) + Buffer(NameOf(x.acceptor)) + Tail(x)
  {
    hide Head, Buffer, KeyPart, Tail;
    var ps := Parts(x);
    assert Concat(ps) == ps[0] + Concat(ps[1..]);
    assert Concat(ps[1..]) == ps[1] + Concat(ps[2..]) by { assert ps[1..][1..] == ps[2..]; }
    assert Concat(ps[2..]) == ps[2] + Concat(ps[3..]) by { assert ps[2..][1..] == ps[3..]; }
    assert Concat(ps[3..]) == ps[3] + Concat(ps[4..]) by { assert ps[3..][1..] == ps[4..]; }
    assert Concat(ps[4..]) == ps[4] + Concat(ps[5..]) by { assert ps[4..][1..] == ps[5..]; }
    assert Concat(ps[5..]) == ps[5] + Concat(ps[6..]) by { assert ps[5..][1..] == ps[6..]; }
    assert ps[6..] == [];
  }

  /** The lowest k bytes of a number, the most significant first. */
  function BigEndian(n: nat, k: nat): (b: bytes)
    ensures |b| == k
  {
    if k == 0 then [] else BigEndian(n / 256, k - 1) + [n % 256]
  }

  /** Its lowest four bytes. */
  lemma LowestFour(n: nat, j: nat)
    ensures BigEndian(n, j + 4) == BigEndian(n / U32_LIMIT, j) + U32(n)
  {
    hide BigEndian, U32;
    var a, b, c, d := n / 256, n / 256 / 256, n / 256 / 256 / 256, n / 256 / 256 / 256 / 256;
    LowestOne(n, j + 3);
    LowestOne(a, j + 2);
    LowestOne(b, j + 1);
    LowestOne(c, j);
    assert b == n / 65536 && c == n / 0x100_0000 && d == n / U32_LIMIT;
    U32Is(n);
    var high := BigEndian(d, j);
    assert high + [c % 256] + [b % 256] + [a % 256] + [n % 256] == high + [c % 256, b % 256, a % 256, n % 256];
  }

  lemma LowestOne(n: nat, j: nat)
    ensures BigEndian(n, j + 1) == BigEndian(n / 256, j) + [n % 256]
  {
  }

  lemma U32Is(n: nat)
    ensures U32(n) == [n / 0x100_0000 % 256, n / 65536 % 256, n / 256 % 256, n % 256]
  {
  }

  lemma U32IsBigEndian(n: nat)
    ensures U32(n) == BigEndian(n, 4)
  {
    hide U32;
    LowestFour(n, 0);
    assert BigEndian(n / U32_LIMIT, 0) == [];
  }

  lemma U32Wraps(n: nat)
    ensures U32(n % U32_LIMIT) == U32(n)
  {
    hide U32;
    var q, r := n / U32_LIMIT, n % U32_LIMIT;
    assert n == U32_LIMIT * q + r;
    ThirdByte(q, r);
    SecondByte(q, r);
    FirstBytes(q, r);
    U32Is(n);
    U32Is(r);
  }

  lemma ThirdByte(q: nat, r: nat)
    ensures (U32_LIMIT * q + r) / 0x100_0000 % 256 == r / 0x100_0000 % 256
  {
    assert (U32_LIMIT * q + r) / 0x100_0000 == 256 * q + r / 0x100_0000;
  }

  lemma SecondByte(q: nat, r: nat)
    ensures (U32_LIMIT * q + r) / 65536 % 256 == r / 65536 % 256
  {
    assert (U32_LIMIT * q + r) / 65536 == 256 * (256 * q) + r / 65536;
  }

  lemma FirstBytes(q: nat, r: nat)
    ensures (U32_LIMIT * q + r) / 256 % 256 == r / 256 % 256 && (U32_LIMIT * q + r) % 256 == r % 256
  {
    assert (U32_LIMIT * q + r) / 256 == 256 * (65536 * q) + r / 256;
    assert U32_LIMIT * q + r == 256 * (0x100_0000 * q) + r;
  }

  lemma U64IsBigEndian(n: nat)
    ensures U64(n) == BigEndian(n, 8)
  {
    hide U32, BigEndian;
    LowestFour(n, 4);
    U32IsBigEndian(n / U32_LIMIT);
    U32Wraps(n);
  }

  /** The token, byte for byte: version, state and flags, the mechanism, the key with its types, both names, and the
      rest, each number with its most significant byte first and each string behind its length. */
  lemma LayoutExactly(x: Context)
    ensures Layout(x) ==
            BigEndian(1, 4) + BigEndian(x.state, 4) + BigEndian(x.flags, 4) + BigEndian(x.gssFlags, 4)
            + (BigEndian(|x.mech|, 4) + x.mech)
            + (BigEndian(x.checksumType, 4) + BigEndian(x.encryptionType, 4) + (BigEndian(|x.key|, 4) + x.key))
            + (BigEndian(|NameOf(x.initiator)|, 4) + NameOf(x.initiator)) + (BigEndian(|NameOf(x.acceptor)|, 4) + NameOf(x.acceptor))
            + (BigEndian(x.expiry, 8) + BigEndian(x.sendSeq, 8) + BigEndian(x.recvSeq, 8) + x.queue)
  {
    hide U32, U64, BigEndian, Layout;
    LayoutIs(x);
    U32IsBigEndian(1);
    U32IsBigEndian(x.state);
    U32IsBigEndian(x.flags);
    U32IsBigEndian(x.gssFlags);
    U32IsBigEndian(|x.mech|);
    U32IsBigEndian(x.checksumType);
    U32IsBigEndian(x.encryptionType);
    U32IsBigEndian(|x.key|);
    U32IsBigEndian(|NameOf(x.initiator)|);
    U32IsBigEndian(|NameOf(x.acceptor)|);
    U64IsBigEndian(x.expiry);
    U64IsBigEndian(x.sendSeq);
    U64IsBigEndian(x.recvSeq);
  }

  /** `gssBidExportSecContext`: None for a context that is not established. The write cursor ends
      exactly at the computed length. */
  method Export(x: Context) returns (token: Option<bytes>)
    requires |x.queue| == QUEUE_SIZE
    ensures token == if x.state != ESTABLISHED then None else Some(Layout(x))
    ensures token.Some? ==> |token.value| == ComputedLength(x)
  {
    hide U32, U64, Concat;
    if x.state != ESTABLISHED {
      return None;
    }
    var initiator, acceptor := NameOf(x.initiator), NameOf(x.acceptor);
    var length := 16;
    length := length + 4 + |x.mech|;
    length := length + 12 + |x.key|;
    length := length + 4 + |initiator|;
    length := length + 4 + |acceptor|;
    length := length + 24 + QUEUE_SIZE;
    var buf := new byte[length];
    var p := StoreHead(buf, x);
    p := StoreBuffer(buf, p, x.mech);
    p := StoreKey(buf, p, x);
    p := StoreBuffer(buf, p, initiator);
    p := StoreBuffer(buf, p, acceptor);
    p := StoreTail(buf, p, x);
    assert p == length;
    LayoutIs(x);
    assert buf[..p] == buf[..];
    return Some(buf[..]);
  }

  method StoreHead(buf: array<byte>, x: Context) returns (p: nat)
    requires 16 <= buf.Length
    modifies buf
    ensures p == 16 && buf[..p] == Head(x)
  {
    hide U32;
    p := Store(buf, 0, U32(VERSION));
    p := Store(buf, p, U32(x.state));
    p := Store(buf, p, U32(x.flags));
    p := Store(buf, p, U32(x.gssFlags));
  }

  method StoreKey(buf: array<byte>, p: nat, x: Context) returns (p': nat)
    requires p + 12 + |x.key| <= buf.Length
    modifies buf
    ensures p' == p + 12 + |x.key| && buf[..p'] == old(buf[..p]) + KeyPart(x)
  {
    hide U32;
    p' := Store(buf, p, U32(x.checksumType));
    p' := Store(buf, p', U32(x.encryptionType));
    p' := StoreBuffer(buf, p', x.key);
  }

  method StoreTail(buf: array<byte>, p: nat, x: Context) returns (p': nat)
    requires p + 24 + |x.queue| <= buf.Length
    modifies buf
    ensures p' == p + 24 + |x.queue| && buf[..p'] == old(buf[..p]) + Tail(x)
  {
    hide U64;
    p' := Store(buf, p, U64(x.expiry));
    p' := Store(buf, p', U64(x.sendSeq));
    p' := Store(buf, p', U64(x.recvSeq));
    p' := Store(buf, p', x.queue);
  }

  // ----- import -----

  predicate ValidState(state: nat, flags: nat) {
    && 0x01 <= state <= ESTABLISHED
    && (IsInitiator(flags) ==> state == ESTABLISHED)
  }

  /** The fixed part: state, flags and GSS flags. */
  function ReadHead(tok: bytes): Imported<(nat, nat, nat)> {
    if |tok| < 16 then Failed(Truncated)
    else if Load32(tok, 0) != VERSION then Failed(BadToken)
    else if !ValidState(Load32(tok, 4), Load32(tok, 8)) then Failed(Defective)
    else Done((Load32(tok, 4), Load32(tok, 8), Load32(tok, 12)))
  }

  /** The fixed part is accepted exactly when it is there, of version 1, with a state between the first and
      ESTABLISHED, and that one if the context is an initiator's. */
  lemma HeadExactly(tok: bytes)
    ensures ReadHead(tok).Done? <==>
            && |tok| >= 16 && tok[..4] == [0, 0, 0, 1] && tok[4..7] == [0, 0, 0] && 0x01 <= tok[7] <= 0x20
            && (tok[11] % 2 == 1 ==> tok[7] == 0x20)
  {
    if |tok| >= 16 {
      FourBytes(tok[0], tok[1], tok[2], tok[3]);
      FourBytes(tok[4], tok[5], tok[6], tok[7]);
      FourBytes(tok[8], tok[9], tok[10], tok[11]);
    }
  }

  lemma FourBytes(a: byte, b: byte, c: byte, d: byte)
    ensures var n := a as int * 0x100_0000 + b as int * 65536 + c as int * 256 + d as int;
            (n < 256 <==> a == 0 && b == 0 && c == 0) && n % 2 == d % 2
  {
  }

  /** `gssBidImportMechanismOid`. It loads the length without looking at what remains, and its bound
      is a 32-bit sum; an OID that passes a wrapped bound is compared with the mechanism's prefix, and
      copied only if it matches. */
  function ReadMech(tok: bytes, p: nat): (r: Imported<(bytes, nat)>)
    requires p <= |tok|
    ensures r.Done? ==> p <= r.value.1 <= |tok|
  {
    var remain := |tok| - p;
    if remain < 4 then Failed(Overread)
    else
      var length := Load32(tok, p);
      if remain < (4 + length) % U32_LIMIT || length == 0 then Failed(Truncated)
      else if remain - 4 < length then
        if remain - 4 < |MECHANISM| || tok[p + 4..p + 4 + |MECHANISM|] == MECHANISM then Failed(Overread) else Failed(BadMech)
      else if !IsConcrete(tok[p + 4..p + 4 + length]) then Failed(BadMech)
      else Done((tok[p + 4..p + 4 + length], p + (4 + length) % U32_LIMIT))
  }

  /** A mechanism is read exactly when its length and its bytes are there, and it is that of BrowserID,
      1.3.6.1.4.1.5322.24.1, with something behind it. */
  lemma MechExactly(tok: bytes, p: nat)
    requires p <= |tok|
    ensures ReadMech(tok, p).Done? <==>
            && |tok| - p >= 4 && 9 < Load32(tok, p) <= |tok| - p - 4
            && tok[p + 4..p + 13] == [0x2B, 0x06, 0x01, 0x04, 0x01, 0xA9, 0x4A, 0x18, 0x01]
    ensures ReadMech(tok, p).Done? ==> ReadMech(tok, p).value.0 == tok[p + 4..p + 4 + Load32(tok, p)]
  {
    hide Load32;
    if |tok| - p >= 4 && Load32(tok, p) <= |tok| - p - 4 {
      var mech := tok[p + 4..p + 4 + Load32(tok, p)];
      assert |mech| >= 9 ==> mech[..9] == tok[p + 4..p + 13];
    }
  }

  /** `importKerberosKey`: checksum type, encryption type and key. The cursor moves by a 32-bit sum. */
  function ReadKey(tok: bytes, p: nat): (r: Imported<(nat, nat, bytes, nat)>)
    requires p <= |tok|
    ensures r.Done? ==> p <= r.value.3 <= |tok|
  {
    var remain := |tok| - p;
    if remain < 12 then Failed(Truncated)
    else
      var encryptionType, length := Load32(tok, p + 4), Load32(tok, p + 8);
      if (length != 0) != (encryptionType != 0) then Failed(BadToken)
      else if remain - 12 < length then Failed(Truncated)
      else Done((Load32(tok, p), encryptionType, tok[p + 12..p + 12 + length], p + (12 + length) % U32_LIMIT))
  }

  /** `importName`; `withOid` for the name that carries its mechanism. */
  function ReadName(names: Names, tok: bytes, p: nat, withOid: bool): (r: Imported<(Option<bytes>, nat)>)
    requires p <= |tok|
    ensures r.Done? ==> p <= r.value.1 <= |tok|
  {
    var remain := |tok| - p;
    if remain < 4 then Failed(Truncated)
    else
      var length := Load32(tok, p);
      if length == 0 then Done((None, p + 4))
      else if remain - 4 < length then Failed(Truncated)
      else if !names(tok[p + 4..p + 4 + length], withOid) then Failed(BadName)
      else Done((Some(tok[p + 4..p + 4 + length]), p + 4 + length))
  }

  /** Expiry, sequence numbers and the sequence queue. */
  function ReadTail(tok: bytes, p: nat): Imported<(nat, nat, nat, bytes)>
    requires p <= |tok|
  {
    if |tok| - p < 24 + QUEUE_SIZE then Failed(Truncated)
    else Done((Load64(tok, p), Load64(tok, p + 8), Load64(tok, p + 16), tok[p + 24..p + 24 + QUEUE_SIZE]))
  }

  function PeerName(flags: nat, initiator: Option<bytes>, acceptor: Option<bytes>): Option<bytes> {
    if IsInitiator(flags) then acceptor else initiator
  }

  /** `gssBidImportContext`. */
  function Import(names: Names, tok: bytes): Imported<Context> {
    var (state, flags, gssFlags) :- ReadHead(tok);
    var (mech, p2) :- ReadMech(tok, 16);
    var (checksumType, encryptionType, key, p3) :- ReadKey(tok, p2);
    var (initiator, p4) :- ReadName(names, tok, p3, false);
    var (acceptor, p5) :- ReadName(names, tok, p4, true);
    if state == ESTABLISHED && PeerName(flags, initiator, acceptor).None? then Failed(Defective)
    else
      var (expiry, sendSeq, recvSeq, queue) :- ReadTail(tok, p5);
      Done(Context(state, flags, gssFlags, mech, checksumType, encryptionType, key, initiator, acceptor, expiry, sendSeq,
                   recvSeq, queue))
  }

  /** Cursor and remaining count after a field. */
  datatype Cursor = Cursor(p: nat, remain: nat)

  predicate InStep(tok: bytes, at: Cursor) {
    at.p + at.remain == |tok|
  }

  method Advance(tok: bytes, at: Cursor, n: nat) returns (next: Cursor)
    requires InStep(tok, at) && n <= at.remain
    ensures InStep(tok, next) && next.p == at.p + n
  {
    next := at.(p := at.p + n);
    next := next.(remain := next.remain - n);
  }

  method ImportMech(tok: bytes, at: Cursor) returns (r: Imported<bytes>, next: Cursor)
    requires InStep(tok, at)
    ensures InStep(tok, next)
    ensures var spec := ReadMech(tok, at.p);
            if spec.Failed? then r == Failed(spec.error) else r == Done(spec.value.0) && next.p == spec.value.1
  {
    hide Load32;
    next := at;
    if at.remain < 4 {
      return Failed(Overread), next;
    }
    var length := Load32(tok, at.p);
    if at.remain < (4 + length) % U32_LIMIT || length == 0 {
      return Failed(Truncated), next;
    }
    var elements := at.p + 4;
    if length > at.remain - 4 {
      if at.remain - 4 < |MECHANISM| {
        return Failed(Overread), next;
      }
      return Failed(if tok[elements..elements + |MECHANISM|] == MECHANISM then Overread else BadMech), next;
    }
    if !IsConcrete(tok[elements..elements + length]) {
      return Failed(BadMech), next;
    }
    next := Advance(tok, at, (4 + length) % U32_LIMIT);
    r := Done(tok[elements..elements + length]);
  }

  method ImportKey(tok: bytes, at: Cursor) returns (r: Imported<(nat, nat, bytes)>, next: Cursor)
    requires InStep(tok, at)
    ensures InStep(tok, next)
    ensures var spec := ReadKey(tok, at.p);
            if spec.Failed? then r == Failed(spec.error)
            else r == Done((spec.value.0, spec.value.1, spec.value.2)) && next.p == spec.value.3
  {
    hide Load32;
    next := at;
    var p := at.p;
    if at.remain < 12 {
      return Failed(Truncated), next;
    }
    var checksumType := Load32(tok, p);
    var encryptionType := Load32(tok, p + 4);
    var length := Load32(tok, p + 8);
    if (length != 0) != (encryptionType != 0) {
      return Failed(BadToken), next;
    }
    if at.remain - 12 < length {
      return Failed(Truncated), next;
    }
    next := Advance(tok, at, (12 + length) % U32_LIMIT);
    r := Done((checksumType, encryptionType, tok[p + 12..p + 12 + length]));
  }

  method ImportName(names: Names, tok: bytes, at: Cursor, withOid: bool) returns (r: Imported<Option<bytes>>, next: Cursor)
    requires InStep(tok, at)
    ensures InStep(tok, next)
    ensures var spec := ReadName(names, tok, at.p, withOid);
            if spec.Failed? then r == Failed(spec.error) else r == Done(spec.value.0) && next.p == spec.value.1
  {
    hide Load32;
    next := at;
    var name: Option<bytes> := None;
    if at.remain < 4 {
      return Failed(Truncated), next;
    }
    var length := Load32(tok, at.p);
    if length != 0 {
      if at.remain - 4 < length {
        return Failed(Truncated), next;
      }
      var value := tok[at.p + 4..at.p + 4 + length];
      if !names(value, withOid) {
        return Failed(BadName), next;
      }
      name := Some(value);
    }
    next := Advance(tok, at, 4 + length);
    r := Done(name);
  }

  /** An imported context, filled in field by field as cursor and remaining count advance. */
  class ContextObject {
    var value: Context

    constructor ()
    {
      value := Context(1, 0, 0, [], 0, 0, [], None, None, 0, 0, 0, []);
    }

    method ImportHead(tok: bytes) returns (r: Imported<Cursor>)
      modifies this
      ensures var spec := ReadHead(tok);
              if spec.Failed? then r == Failed(spec.error)
              else r.Done? && r.value.p == 16 && InStep(tok, r.value)
                   && value == old(value).(state := spec.value.0, flags := spec.value.1, gssFlags := spec.value.2)
    {
      hide Load32;
      var at := Cursor(0, |tok|);
      if at.remain < 16 {
        return Failed(Truncated);
      }
      if Load32(tok, 0) != VERSION {
        return Failed(BadToken);
      }
      value := value.(state := Load32(tok, 4));
      value := value.(flags := Load32(tok, 8));
      value := value.(gssFlags := Load32(tok, 12));
      at := Advance(tok, at, 16);
      if value.state < 0x01 || value.state > ESTABLISHED {
        return Failed(Defective);
      }
      if IsInitiator(value.flags) && value.state != ESTABLISHED {
        return Failed(Defective);
      }
      return Done(at);
    }

    method ImportNames(names: Names, tok: bytes, at: Cursor) returns (r: Imported<Cursor>)
      requires InStep(tok, at)
      modifies this
      ensures var spec := ReadName(names, tok, at.p, false);
              if spec.Failed? then r == Failed(spec.error)
              else
                var spec2 := ReadName(names, tok, spec.value.1, true);
                if spec2.Failed? then r == Failed(spec2.error)
                else r.Done? && r.value.p == spec2.value.1 && InStep(tok, r.value)
                     && value == old(value).(initiator := spec.value.0, acceptor := spec2.value.0)
    {
      hide ReadName;
      var name, next := ImportName(names, tok, at, false);
      if name.Failed? {
        return Failed(name.error);
      }
      value := value.(initiator := name.value);
      name, next := ImportName(names, tok, next, true);
      if name.Failed? {
        return Failed(name.error);
      }
      value := value.(acceptor := name.value);
      return Done(next);
    }

    /** `gssBidImportContext`. No read of the main, key and name parsers is out of range. */
    method ImportContext(names: Names, tok: bytes) returns (r: Imported<()>)
      modifies this
      ensures var spec := Import(names, tok);
              if spec.Failed? then r == Failed(spec.error) else r == Done(()) && value == spec.value
    {
      hide Load64, ReadHead, ReadMech, ReadKey, ReadName;
      var at :- ImportHead(tok);
      var mech;
      mech, at := ImportMech(tok, at);
      if mech.Failed? {
        return Failed(mech.error);
      }
      value := value.(mech := mech.value);
      var key;
      key, at := ImportKey(tok, at);
      if key.Failed? {
        return Failed(key.error);
      }
      value := value.(checksumType := key.value.0, encryptionType := key.value.1, key := key.value.2);
      at :- ImportNames(names, tok, at);
      if value.state == ESTABLISHED && PeerName(value.flags, value.initiator, value.acceptor).None? {
        return Failed(Defective);
      }
      if at.remain < 24 + QUEUE_SIZE {
        return Failed(Truncated);
      }
      var p := at.p;
      value := value.(expiry := Load64(tok, p), sendSeq := Load64(tok, p + 8), recvSeq := Load64(tok, p + 16));
      at := Advance(tok, at, 24);
      value := value.(queue := tok[at.p..at.p + QUEUE_SIZE]);
      at := Advance(tok, at, QUEUE_SIZE);
      return Done(());
    }
  }

  // ----- round trip -----

  ghost predicate At(tok: bytes, p: nat, b: bytes) {
    p + |b| <= |tok| && forall i :: 0 <= i < |b| ==> tok[p + i] == b[i]
  }

  lemma AtSplit(tok: bytes, p: nat, a: bytes, b: bytes)
    requires At(tok, p, a + b)
    ensures At(tok, p, a) && At(tok, p + |a|, b)
  {
    assert forall i :: 0 <= i < |a| ==> (a + b)[i] == a[i];
    assert forall i :: 0 <= i < |b| ==> (a + b)[|a| + i] == b[i];
  }

  lemma LoadU32(tok: bytes, p: nat, n: nat)
    requires At(tok, p, U32(n)) && n < U32_LIMIT
    ensures Load32(tok, p) == n
  {
    assert tok[p] == U32(n)[0] && tok[p + 1] == U32(n)[1] && tok[p + 2] == U32(n)[2] && tok[p + 3] == U32(n)[3];
    Bytes32(n);
  }

  lemma Bytes32(n: nat)
    requires n < U32_LIMIT
    ensures n == n / 0x100_0000 % 256 * 0x100_0000 + n / 65536 % 256 * 65536 + n / 256 % 256 * 256 + n % 256
  {
    var a, b, c := n / 256, n / 65536, n / 0x100_0000;
    assert n == 256 * a + n % 256;
    assert a == 256 * b + a % 256;
    assert b == 256 * c + b % 256;
    assert c < 256;
  }

  lemma LoadU64(tok: bytes, p: nat, n: nat)
    requires At(tok, p, U64(n)) && n < U64_LIMIT
    ensures Load64(tok, p) == n
  {
    hide Load32, U32;
    AtSplit(tok, p, U32(n / U32_LIMIT), U32(n % U32_LIMIT));
    LoadU32(tok, p, n / U32_LIMIT);
    LoadU32(tok, p + 4, n % U32_LIMIT);
  }

  /** The fields fit their widths. */
  ghost predicate Fits(x: Context) {
    && x.state < U32_LIMIT && x.flags < U32_LIMIT && x.gssFlags < U32_LIMIT
    && x.checksumType < U32_LIMIT && x.encryptionType < U32_LIMIT
    && x.expiry < U64_LIMIT && x.sendSeq < U64_LIMIT && x.recvSeq < U64_LIMIT
    && 0 < |x.mech| < U32_LIMIT - 4 && |x.key| < U32_LIMIT - 12 && |x.queue| == QUEUE_SIZE
    && (x.initiator.Some? ==> 0 < |x.initiator.value| < U32_LIMIT) && (x.acceptor.Some? ==> 0 < |x.acceptor.value| < U32_LIMIT)
  }

  ghost predicate Recognised(names: Names, x: Context) {
    && IsConcrete(x.mech)
    && (x.initiator.Some? ==> names(x.initiator.value, false)) && (x.acceptor.Some? ==> names(x.acceptor.value, true))
  }

  lemma HeadReads(tok: bytes, x: Context)
    requires At(tok, 0, Head(x)) && Fits(x) && x.state == ESTABLISHED
    ensures ReadHead(tok) == Done((x.state, x.flags, x.gssFlags))
  {
    hide Load32, U32;
    var a, b, c := U32(VERSION), U32(x.state), U32(x.flags);
    AtSplit(tok, 0, a + b + c, U32(x.gssFlags));
    AtSplit(tok, 0, a + b, c);
    AtSplit(tok, 0, a, b);
    LoadU32(tok, 0, VERSION);
    LoadU32(tok, 4, x.state);
    LoadU32(tok, 8, x.flags);
    LoadU32(tok, 12, x.gssFlags);
  }

  lemma BufferReads(tok: bytes, p: nat, b: bytes)
    requires At(tok, p, Buffer(b)) && |b| < U32_LIMIT
    ensures Load32(tok, p) == |b| && tok[p + 4..p + 4 + |b|] == b
  {
    hide Load32, U32;
    AtSplit(tok, p, U32(|b|), b);
    LoadU32(tok, p, |b|);
  }

  lemma KeyReads(tok: bytes, p: nat, x: Context)
    requires At(tok, p, KeyPart(x)) && Fits(x)
    ensures ReadKey(tok, p) ==
            if (x.key != []) != (x.encryptionType != 0) then Failed(BadToken)
            else Done((x.checksumType, x.encryptionType, x.key, p + 12 + |x.key|))
  {
    hide Load32, U32, Buffer;
    AtSplit(tok, p, U32(x.checksumType) + U32(x.encryptionType), Buffer(x.key));
    AtSplit(tok, p, U32(x.checksumType), U32(x.encryptionType));
    LoadU32(tok, p, x.checksumType);
    LoadU32(tok, p + 4, x.encryptionType);
    BufferReads(tok, p + 8, x.key);
    BufferLength(x.key);
  }

  lemma BufferLength(b: bytes)
    ensures |Buffer(b)| == 4 + |b|
  {
  }

  lemma TailReads(tok: bytes, p: nat, x: Context)
    requires At(tok, p, Tail(x)) && Fits(x)
    ensures ReadTail(tok, p) == Done((x.expiry, x.sendSeq, x.recvSeq, x.queue))
  {
    hide Load64, U64;
    var a, b, c := U64(x.expiry), U64(x.sendSeq), U64(x.recvSeq);
    AtSplit(tok, p, a + b + c, x.queue);
    AtSplit(tok, p, a + b, c);
    AtSplit(tok, p, a, b);
    LoadU64(tok, p, x.expiry);
    LoadU64(tok, p + 8, x.sendSeq);
    LoadU64(tok, p + 16, x.recvSeq);
    assert tok[p + 24..p + 24 + QUEUE_SIZE] == x.queue;
  }

  lemma NameReads(names: Names, tok: bytes, p: nat, name: Option<bytes>, withOid: bool)
    requires At(tok, p, Buffer(NameOf(name)))
    requires name.Some? ==> 0 < |name.value| < U32_LIMIT && names(name.value, withOid)
    ensures ReadName(names, tok, p, withOid) == Done((name, p + 4 + |NameOf(name)|))
  {
    hide Load32, Buffer;
    BufferReads(tok, p, NameOf(name));
    BufferLength(NameOf(name));
  }

  lemma MechReads(tok: bytes, p: nat, mech: bytes)
    requires At(tok, p, Buffer(mech)) && 0 < |mech| < U32_LIMIT - 4 && IsConcrete(mech)
    ensures ReadMech(tok, p) == Done((mech, p + 4 + |mech|))
  {
    hide Load32, Buffer;
    BufferReads(tok, p, mech);
    BufferLength(mech);
  }

  /** Where the i-th part of a token lies. */
  function Offset(parts: seq<bytes>, i: nat): nat
    requires i <= |parts|
  {
    if i == 0 then 0 else |parts[0]| + Offset(parts[1..], i - 1)
  }

  lemma {:induction false} PartAt(parts: seq<bytes>, i: nat)
    requires i < |parts|
    ensures At(Concat(parts), Offset(parts, i), parts[i])
  {
    var rest := Concat(parts[1..]);
    if i > 0 {
      PartAt(parts[1..], i - 1);
      var q := Offset(parts[1..], i - 1);
      assert forall j {:trigger rest[q + j]} :: 0 <= j < |parts[i]| ==> (parts[0] + rest)[|parts[0]| + q + j] == rest[q + j];
    }
  }

  lemma PartLengths(x: Context)
    requires |x.queue| == QUEUE_SIZE
    ensures |Head(x)| == 16 && |KeyPart(x)| == 12 + |x.key| && |Tail(x)| == 24 + QUEUE_SIZE
  {
  }

  lemma Offsets(x: Context)
    requires |x.queue| == QUEUE_SIZE
    ensures var ps := Parts(x);
            var p2 := 20 + |x.mech|;
            var p3 := p2 + 12 + |x.key|;
            var p4 := p3 + 4 + |NameOf(x.initiator)|;
            && Offset(ps, 0) == 0 && Offset(ps, 1) == 16 && Offset(ps, 2) == p2 && Offset(ps, 3) == p3
            && Offset(ps, 4) == p4 && Offset(ps, 5) == p4 + 4 + |NameOf(x.acceptor)|
  {
    hide Head, KeyPart, Tail, Buffer;
    PartLengths(x);
    BufferLength(x.mech);
    BufferLength(NameOf(x.initiator));
    BufferLength(NameOf(x.acceptor));
    var ps := Parts(x);
    OffsetStep(ps, 0);
    OffsetStep(ps, 1);
    OffsetStep(ps, 2);
    OffsetStep(ps, 3);
    OffsetStep(ps, 4);
  }

  lemma {:induction false} OffsetStep(parts: seq<bytes>, i: nat)
    requires i < |parts|
    ensures Offset(parts, i + 1) == Offset(parts, i) + |parts[i]|
  {
    if i > 0 {
      OffsetStep(parts[1..], i - 1);
    }
  }

  /** Context transfer: importing an exported context restores every field exactly when there is a key
      for a non-null encryption type and only then, and the peer's name is present; otherwise the
      import is refused. */
  lemma TransferRoundTrip(names: Names, x: Context)
    requires Fits(x) && Recognised(names, x) && x.state == ESTABLISHED
    ensures Import(names, Layout(x)) ==
            if (x.key != []) != (x.encryptionType != 0) then Failed(BadToken)
            else if (if x.flags % 2 == 1 then x.acceptor else x.initiator).None? then Failed(Defective)
            else Done(x)
  {
    hide Head, KeyPart, Tail, Buffer, ReadHead, ReadMech, ReadKey, ReadName, ReadTail, Concat, Offset, At;
    var tok, ps := Layout(x), Parts(x);
    Offsets(x);
    PartAt(ps, 0);
    PartAt(ps, 1);
    PartAt(ps, 2);
    PartAt(ps, 3);
    PartAt(ps, 4);
    PartAt(ps, 5);
    HeadReads(tok, x);
    MechReads(tok, 16, x.mech);
    KeyReads(tok, 20 + |x.mech|, x);
    var p3 := 20 + |x.mech| + 12 + |x.key|;
    NameReads(names, tok, p3, x.initiator, false);
    var p4 := p3 + 4 + |NameOf(x.initiator)|;
    NameReads(names, tok, p4, x.acceptor, true);
    TailReads(tok, p4 + 4 + |NameOf(x.acceptor)|, x);
  }

  // ----- reading past the end -----

  /** The one parser that can read past the token is the mechanism's: when the fixed part is accepted
      and fewer than four bytes follow, or the stated length wraps the 32-bit bound and exceeds what
      remains, and that is too short for the mechanism's prefix or begins with it. */
  lemma OverreadExactly(names: Names, tok: bytes)
    ensures Import(names, tok) == Failed(Overread) <==>
            && ReadHead(tok).Done?
            && (|tok| < 20 || (Load32(tok, 16) >= U32_LIMIT - 4 && |tok| - 20 < Load32(tok, 16)
                               && (|tok| < 29 || tok[20..29] == MECHANISM)))
  {
    hide Load32, Load64, IsConcrete;
    assert |MECHANISM| == 9;
  }
}
