/** Key selection (bid_crypto.c), the algorithm table (bid_openssl.c) and the algorithm loops
    of `_BIDMakeSignature` and `_BIDVerifySignature` (bid_jwt.c). */
module KeySet {
  import opened Wrappers
  import opened Json
  import opened Crypto

  datatype Algorithm = Algorithm(id: string, keyId: string, keyLength: nat)

  const ALGORITHMS: seq<Algorithm> := [
    Algorithm("RS256", "RSA", 0),
    Algorithm("RS128", "RSA", 0),
    Algorithm("RS64", "RSA", 0),
    Algorithm("DS256", "DSA", 256),
    Algorithm("DS128", "DSA", 160),
    Algorithm("HS256", "HS", 0)]

  function Prefix2(s: string): string {
    if |s| <= 2 then s else s[..2]
  }

  /** `_BIDKeyMatchesP`. */
  predicate KeyMatches(c: Crypto, alg: Algorithm, jwk: Json) {
    var o := Members(jwk);
    var name :=
      if "secret-key" in o then Some("HS")
      else if GetString(o, "algorithm").Some? then GetString(o, "algorithm")
      else GetString(o, "alg");
    && name.Some?
    && Prefix2(name.value) == Prefix2(alg.keyId)
    && (alg.keyLength != 0 ==> c.keySize(alg.id, jwk) == Some(alg.keyLength))
  }

  /** The key that a set without "keys" stands for. */
  function Leaf(keyset: Json): Json {
    if "public-key" in Members(keyset) then Members(keyset)["public-key"] else keyset
  }

  /** `_BIDFindKeyInKeyset`. */
  function FindKey(c: Crypto, alg: Algorithm, keyset: Json): Result<Json>
    decreases keyset, 0
  {
    if "keys" !in Members(keyset) then
      if KeyMatches(c, alg, Leaf(keyset)) then Ok(Leaf(keyset)) else Err(InvalidKeyset)
    else
      match keyset.members["keys"]
      case Arr(keys) => FindKeyInArray(c, alg, keys, NoKey)
      case _ => Err(NoKey)
  }

  /** Its loop over the array: the first success wins, otherwise the last error stays. */
  function FindKeyInArray(c: Crypto, alg: Algorithm, keys: seq<Json>, err: BIDError): Result<Json>
    decreases keys, 1
  {
    if keys == [] then Err(err)
    else
      var r := FindKey(c, alg, keys[0]);
      if r.Ok? then r else FindKeyInArray(c, alg, keys[1..], r.error)
  }

  /** The keys of a nested set, depth first and left to right. */
  function Leaves(keyset: Json): seq<Json>
    decreases keyset, 0
  {
    if "keys" !in Members(keyset) then [Leaf(keyset)]
    else
      match keyset.members["keys"]
      case Arr(keys) => LeavesOf(keys)
      case _ => []
  }

  function LeavesOf(keys: seq<Json>): seq<Json>
    decreases keys, 1
  {
    if keys == [] then [] else Leaves(keys[0]) + LeavesOf(keys[1..])
  }

  function FirstMatch(c: Crypto, alg: Algorithm, leaves: seq<Json>): Option<Json> {
    if leaves == [] then None
    else if KeyMatches(c, alg, leaves[0]) then Some(leaves[0])
    else FirstMatch(c, alg, leaves[1..])
  }

  /** k is the index of the first matching key, |leaves| if there is none. */
  lemma {:induction false} FirstMatchIndex(c: Crypto, alg: Algorithm, leaves: seq<Json>) returns (k: nat)
    ensures k <= |leaves| && forall j :: 0 <= j < k ==> !KeyMatches(c, alg, leaves[j])
    ensures k < |leaves| ==> KeyMatches(c, alg, leaves[k])
    ensures FirstMatch(c, alg, leaves) == if k < |leaves| then Some(leaves[k]) else None
  {
    hide KeyMatches;
    if leaves == [] || KeyMatches(c, alg, leaves[0]) {
      k := 0;
    } else {
      k := FirstMatchIndex(c, alg, leaves[1..]);
      assert forall j :: 1 <= j < k + 1 ==> leaves[j] == leaves[1..][j - 1];
      k := k + 1;
    }
  }

  lemma {:induction false} FirstMatchConcat(c: Crypto, alg: Algorithm, a: seq<Json>, b: seq<Json>)
    ensures FirstMatch(c, alg, a + b) ==
            if FirstMatch(c, alg, a).Some? then FirstMatch(c, alg, a) else FirstMatch(c, alg, b)
  {
    hide KeyMatches;
    if a == [] {
      assert a + b == b;
    } else {
      assert (a + b)[1..] == a[1..] + b;
      FirstMatchConcat(c, alg, a[1..], b);
    }
  }

  /** The search answers the first matching key in depth-first order, and fails exactly when
      no key of the nested set matches. */
  lemma {:induction false} FindKeyIsFirstMatch(c: Crypto, alg: Algorithm, keyset: Json)
    ensures FindKey(c, alg, keyset).Ok? <==> FirstMatch(c, alg, Leaves(keyset)).Some?
    ensures FindKey(c, alg, keyset).Ok? ==> FirstMatch(c, alg, Leaves(keyset)) == Some(FindKey(c, alg, keyset).value)
    decreases keyset, 0
  {
    hide KeyMatches;
    if "keys" in Members(keyset) && keyset.members["keys"].Arr? {
      FindKeyInArrayIsFirstMatch(c, alg, keyset.members["keys"].elems, NoKey);
    }
  }

  lemma {:induction false} FindKeyInArrayIsFirstMatch(c: Crypto, alg: Algorithm, keys: seq<Json>, err: BIDError)
    ensures var r, k := FindKeyInArray(c, alg, keys, err), FirstMatch(c, alg, LeavesOf(keys));
            (r.Ok? <==> k.Some?) && (r.Ok? ==> k == Some(r.value))
    decreases keys, 1
  {
    if keys != [] {
      FindKeyIsFirstMatch(c, alg, keys[0]);
      FirstMatchConcat(c, alg, Leaves(keys[0]), LeavesOf(keys[1..]));
      var r := FindKey(c, alg, keys[0]);
      if r.Err? {
        FindKeyInArrayIsFirstMatch(c, alg, keys[1..], r.error);
      }
    }
  }

  /** Which error a search without a match ends in: that of the last element, or that of a container without any. */
  lemma FindErrors(c: Crypto, alg: Algorithm, keyset: Json)
    requires FindKey(c, alg, keyset).Err?
    ensures var keys, r := Get(Members(keyset), "keys"), FindKey(c, alg, keyset);
            && (keys.None? ==> r == Err(InvalidKeyset))
            && (keys.Some? && !(keys.value.Arr? && keys.value.elems != []) ==> r == Err(NoKey))
            && (keys.Some? && keys.value.Arr? && keys.value.elems != [] ==>
                  r == FindKey(c, alg, keys.value.elems[|keys.value.elems| - 1]))
  {
    hide KeyMatches;
    if "keys" in Members(keyset) && keyset.members["keys"].Arr? {
      LastError(c, alg, keyset.members["keys"].elems, NoKey);
    }
  }

  lemma {:induction false} LastError(c: Crypto, alg: Algorithm, keys: seq<Json>, err: BIDError)
    requires FindKeyInArray(c, alg, keys, err).Err?
    ensures FindKeyInArray(c, alg, keys, err) == if keys == [] then Err(err) else FindKey(c, alg, keys[|keys| - 1])
  {
    hide FindKey;
    if keys != [] {
      LastError(c, alg, keys[1..], FindKey(c, alg, keys[0]).error);
    }
  }

  // ----- choosing an algorithm -----

  /** The signer's loop: the first algorithm of the table that has a key. */
  function SignerFrom(c: Crypto, keyset: Json, i: nat, err: BIDError): Result<(Algorithm, Json)>
    requires i <= |ALGORITHMS|
    decreases |ALGORITHMS| - i
  {
    if i == |ALGORITHMS| then Err(err)
    else
      var k := FindKey(c, ALGORITHMS[i], keyset);
      if k.Ok? then Ok((ALGORITHMS[i], k.value)) else SignerFrom(c, keyset, i + 1, k.error)
  }

  function Signer(c: Crypto, keyset: Json): Result<(Algorithm, Json)> {
    SignerFrom(c, keyset, 0, UnknownAlgorithm)
  }

  /** The verifier's loop: the table entries named like the header's "alg". */
  function VerifierFrom(c: Crypto, keyset: Option<Json>, name: string, i: nat, err: BIDError): Result<(Algorithm, Json)>
    requires i <= |ALGORITHMS|
    decreases |ALGORITHMS| - i
  {
    if i == |ALGORITHMS| then Err(err)
    else if ALGORITHMS[i].id != name then VerifierFrom(c, keyset, name, i + 1, err)
    else
      var k := if keyset.None? then Err(InvalidKeyset) else FindKey(c, ALGORITHMS[i], keyset.value);
      if k.Ok? then Ok((ALGORITHMS[i], k.value)) else VerifierFrom(c, keyset, name, i + 1, k.error)
  }

  function Verifier(c: Crypto, keyset: Option<Json>, name: string): Result<(Algorithm, Json)> {
    VerifierFrom(c, keyset, name, 0, UnknownAlgorithm)
  }

  method SelectSigningKey(c: Crypto, keyset: Json) returns (r: Result<(Algorithm, Json)>)
    ensures r == Signer(c, keyset)
  {
    var err := UnknownAlgorithm;
    for i := 0 to |ALGORITHMS|
      invariant SignerFrom(c, keyset, i, err) == Signer(c, keyset)
    {
      var k := FindKey(c, ALGORITHMS[i], keyset);
      if k.Ok? {
        return Ok((ALGORITHMS[i], k.value));
      }
      err := k.error;
    }
    return Err(err);
  }

  method SelectVerifyingKey(c: Crypto, keyset: Option<Json>, name: string) returns (r: Result<(Algorithm, Json)>)
    ensures r == Verifier(c, keyset, name)
  {
    var err := UnknownAlgorithm;
    for i := 0 to |ALGORITHMS|
      invariant VerifierFrom(c, keyset, name, i, err) == Verifier(c, keyset, name)
    {
      if ALGORITHMS[i].id == name {
        var k := if keyset.None? then Err(InvalidKeyset) else FindKey(c, ALGORITHMS[i], keyset.value);
        if k.Ok? {
          return Ok((ALGORITHMS[i], k.value));
        }
        err := k.error;
      }
    }
    return Err(err);
  }

  lemma {:induction false} SignerIsInTable(c: Crypto, keyset: Json, i: nat, err: BIDError)
    requires i <= |ALGORITHMS|
    requires SignerFrom(c, keyset, i, err).Ok?
    ensures var (alg, key) := SignerFrom(c, keyset, i, err).value;
            && FindKey(c, alg, keyset) == Ok(key)
            && exists j :: i <= j < |ALGORITHMS| && ALGORITHMS[j] == alg
                           && forall k :: i <= k < j ==> FindKey(c, ALGORITHMS[k], keyset).Err?
    decreases |ALGORITHMS| - i
  {
    hide FindKey;
    var k := FindKey(c, ALGORITHMS[i], keyset);
    if k.Err? {
      SignerIsInTable(c, keyset, i + 1, k.error);
    }
  }

  lemma NamesAreDistinct(i: nat, j: nat)
    requires i < j < |ALGORITHMS|
    ensures ALGORITHMS[i].id != ALGORITHMS[j].id
  {
  }

  /** HMAC is the only algorithm for which a secret key matches. */
  lemma OnlyHmac(i: nat)
    requires i < |ALGORITHMS|
    ensures Prefix2(ALGORITHMS[i].keyId) == Prefix2("HS") ==> ALGORITHMS[i].keyId == "HS"
  {
    assert Prefix2("RSA")[0] == 'R' && Prefix2("DSA")[0] == 'D' && Prefix2("HS")[0] == 'H';
  }

  lemma {:induction false} VerifierSkips(c: Crypto, keyset: Option<Json>, j: nat, i: nat, err: BIDError)
    requires i <= j < |ALGORITHMS|
    ensures VerifierFrom(c, keyset, ALGORITHMS[j].id, i, err) == VerifierFrom(c, keyset, ALGORITHMS[j].id, j, err)
    decreases j - i
  {
    if i < j {
      NamesAreDistinct(i, j);
      VerifierSkips(c, keyset, j, i + 1, err);
    }
  }

  /** With one shared key set, the verifier that is told the signer's algorithm selects the
      same table entry and the same key. */
  lemma SameSelection(c: Crypto, keyset: Json)
    requires Signer(c, keyset).Ok?
    ensures Verifier(c, Some(keyset), Signer(c, keyset).value.0.id) == Signer(c, keyset)
  {
    var (alg, key) := Signer(c, keyset).value;
    SignerIsInTable(c, keyset, 0, UnknownAlgorithm);
    var j :| 0 <= j < |ALGORITHMS| && ALGORITHMS[j] == alg;
    VerifierSkips(c, Some(keyset), j, 0, UnknownAlgorithm);
  }

  /** The verifier's selection is a table entry of that name, with a key that the search finds. */
  lemma {:induction false} VerifierIsInTable(c: Crypto, keyset: Json, name: string, i: nat, err: BIDError)
    requires i <= |ALGORITHMS|
    requires VerifierFrom(c, Some(keyset), name, i, err).Ok?
    ensures var (alg, key) := VerifierFrom(c, Some(keyset), name, i, err).value;
            && FindKey(c, alg, keyset) == Ok(key) && alg.id == name
            && exists j :: 0 <= j < |ALGORITHMS| && ALGORITHMS[j] == alg
    decreases |ALGORITHMS| - i
  {
    hide FindKey;
    if ALGORITHMS[i].id != name {
      VerifierIsInTable(c, keyset, name, i + 1, err);
    } else {
      var k := FindKey(c, ALGORITHMS[i], keyset);
      if k.Err? {
        VerifierIsInTable(c, keyset, name, i + 1, k.error);
      }
    }
  }

  /** A key that is found is the set itself or lies inside it; inside, if the set has a container. */
  lemma {:induction false} FoundInside(c: Crypto, alg: Algorithm, keyset: Json)
    requires FindKey(c, alg, keyset).Ok?
    ensures var key, o := FindKey(c, alg, keyset).value, Members(keyset);
            && KeyMatches(c, alg, key)
            && (if "keys" in o || "public-key" in o then key < keyset else key == keyset)
    decreases keyset, 0
  {
    hide KeyMatches;
    if "keys" in Members(keyset) {
      assert keyset.members["keys"] < keyset;
      FoundInsideArray(c, alg, keyset.members["keys"].elems, NoKey, keyset.members["keys"]);
    }
  }

  lemma {:induction false} FoundInsideArray(c: Crypto, alg: Algorithm, keys: seq<Json>, err: BIDError, outer: Json)
    requires FindKeyInArray(c, alg, keys, err).Ok? && forall k :: k in keys ==> k < outer
    ensures KeyMatches(c, alg, FindKeyInArray(c, alg, keys, err).value)
    ensures FindKeyInArray(c, alg, keys, err).value < outer
    decreases keys, 1
  {
    hide KeyMatches;
    var r := FindKey(c, alg, keys[0]);
    assert keys[0] in keys;
    if r.Ok? {
      FoundInside(c, alg, keys[0]);
    } else {
      assert forall k :: k in keys[1..] ==> k in keys;
      FoundInsideArray(c, alg, keys[1..], r.error, outer);
    }
  }

  // ----- signatures -----

  /** The algorithm's MakeSignature operation. */
  function Sign(c: Crypto, alg: Algorithm, key: Json, input: string): Result<bytes> {
    if alg.keyId == "HS" then
      var k :- GetBinary(Members(key), "secret-key");
      Ok(c.hmac(k, input))
    else c.pkSign(alg.id, key, input)
  }

  /** The algorithm's VerifySignature operation. */
  function Check(c: Crypto, alg: Algorithm, key: Json, input: string, signature: bytes): Result<bool> {
    if alg.keyId == "HS" then
      var k :- GetBinary(Members(key), "secret-key");
      Ok(signature == c.hmac(k, input))
    else c.pkVerify(alg.id, key, input, signature)
  }

  /** `_BIDVerifySignature` on a token's header, signing input and signature. */
  function VerifySignature(c: Crypto, header: Object, input: string, signature: bytes, keyset: Option<Json>): Result<()> {
    if |signature| == 0 then Err(MissingSignature)
    else
      var name := GetString(header, "alg");
      if name.None? then Err(MissingAlgorithm)
      else
        var (alg, key) :- Verifier(c, keyset, name.value);
        var valid :- Check(c, alg, key, input, signature);
        if valid then Ok(()) else Err(InvalidSignature)
  }

  /** Without a key nothing verifies. */
  lemma NoKeyNoSignature(c: Crypto, header: Object, input: string, signature: bytes)
    ensures VerifySignature(c, header, input, signature, None).Err?
  {
    if GetString(header, "alg").Some? {
      VerifierNeedsKey(c, GetString(header, "alg").value, 0, UnknownAlgorithm);
    }
  }

  lemma {:induction false} VerifierNeedsKey(c: Crypto, name: string, i: nat, err: BIDError)
    requires i <= |ALGORITHMS|
    ensures VerifierFrom(c, None, name, i, err).Err?
    decreases |ALGORITHMS| - i
  {
    if i < |ALGORITHMS| {
      VerifierNeedsKey(c, name, i + 1, err);
      VerifierNeedsKey(c, name, i + 1, InvalidKeyset);
    }
  }

  // ----- what selection and signature mean -----

  /** What a key is for: its "algorithm", or else its "alg". */
  function Kind(o: Object): string {
    if GetString(o, "algorithm").Some? then GetString(o, "algorithm").value
    else if GetString(o, "alg").Some? then GetString(o, "alg").value
    else ""
  }

  /** The named algorithm can be used with the key: HMAC with a secret key, RSA whatever the digest, DSA if the digest
      is of the key's size. */
  ghost predicate Fits(c: Crypto, name: string, key: Json) {
    var o := Members(key);
    if "secret-key" in o then name == "HS256"
    else if "RS" <= Kind(o) then name == "RS256" || name == "RS128" || name == "RS64"
    else if "DS" <= Kind(o) then
      (name == "DS256" && c.keySize("DS256", key) == Some(256)) || (name == "DS128" && c.keySize("DS128", key) == Some(160))
    else "HS" <= Kind(o) && name == "HS256"
  }

  lemma FitsExactly(c: Crypto, i: nat, key: Json)
    requires i < |ALGORITHMS|
    ensures KeyMatches(c, ALGORITHMS[i], key) <==> Fits(c, ALGORITHMS[i].id, key)
  {
    var kind := Kind(Members(key));
    PrefixIs(kind, "RSA");
    PrefixIs(kind, "DSA");
    PrefixIs(kind, "HS");
    assert "RSA"[..2] == "RS" && "DSA"[..2] == "DS" && "HS"[..2] == "HS";
    assert "RS"[0] == 'R' && "DS"[0] == 'D' && "HS"[0] == 'H';
    NamesDiffer();
    assert i == 0 || i == 1 || i == 2 || i == 3 || i == 4 || i == 5;
  }

  lemma NamesDiffer()
    ensures "RS256" != "RS128" && "RS256" != "RS64" && "RS128" != "RS64" && "DS256" != "DS128"
    ensures "RS256"[0] == "RS128"[0] == "RS64"[0] == 'R' && "DS256"[0] == "DS128"[0] == 'D' && "HS256"[0] == 'H'
  {
  }

  lemma PrefixIs(kind: string, id: string)
    requires |id| >= 2
    ensures Prefix2(kind) == Prefix2(id) <==> id[..2] <= kind
  {
    if Prefix2(kind) == Prefix2(id) {
      assert |kind| >= 2 && kind[..2] == id[..2];
    }
  }

  /** The k-th key of the set is the first that the named algorithm can be used with. */
  ghost predicate FirstFit(c: Crypto, name: string, keyset: Json, k: nat) {
    && k < |Leaves(keyset)| && Fits(c, name, Leaves(keyset)[k])
    && forall j :: 0 <= j < k ==> !Fits(c, name, Leaves(keyset)[j])
  }

  ghost predicate SomeFits(c: Crypto, name: string, keyset: Json) {
    exists k: nat :: FirstFit(c, name, keyset, k)
  }

  lemma FindsFirstFit(c: Crypto, i: nat, keyset: Json)
    requires i < |ALGORITHMS|
    ensures var r, name := FindKey(c, ALGORITHMS[i], keyset), ALGORITHMS[i].id;
            && (r.Ok? <==> SomeFits(c, name, keyset))
            && (forall k: nat :: FirstFit(c, name, keyset, k) ==> r == Ok(Leaves(keyset)[k]))
  {
    hide FindKey, Leaves, KeyMatches, Fits, FirstMatch;
    var leaves, alg := Leaves(keyset), ALGORITHMS[i];
    FindKeyIsFirstMatch(c, alg, keyset);
    var k := FirstMatchIndex(c, alg, leaves);
    forall j | 0 <= j < |leaves|
      ensures KeyMatches(c, alg, leaves[j]) <==> Fits(c, alg.id, leaves[j])
    {
      FitsExactly(c, i, leaves[j]);
    }
    if k < |leaves| {
      assert FirstFit(c, alg.id, keyset, k);
    }
    assert forall k': nat :: FirstFit(c, alg.id, keyset, k') ==> k' == k;
  }

  /** The signature over the input holds under one key. */
  ghost predicate Holds(c: Crypto, name: string, key: Json, input: string, signature: bytes) {
    if name == "HS256" then
      GetBinary(Members(key), "secret-key").Ok? && signature == c.hmac(GetBinary(Members(key), "secret-key").value, input)
    else c.pkVerify(name, key, input, signature) == Ok(true)
  }

  /** A signature verifies exactly when there is one, the header names an algorithm, and it holds under the first key of
      the set that this algorithm can be used with. */
  lemma SignatureExactly(c: Crypto, header: Object, input: string, signature: bytes, keyset: Json)
    ensures VerifySignature(c, header, input, signature, Some(keyset)).Ok? <==>
            && signature != [] && GetString(header, "alg").Some?
            && exists k: nat :: FirstFit(c, GetString(header, "alg").value, keyset, k)
                           && Holds(c, GetString(header, "alg").value, Leaves(keyset)[k], input, signature)
  {
    hide FindKey, Leaves, GetBinary, VerifierFrom, Fits;
    if GetString(header, "alg").Some? {
      var name := GetString(header, "alg").value;
      VerifierExactly(c, keyset, name);
      if k: nat :| FirstFit(c, name, keyset, k) {
        var i := NameOfFit(c, name, keyset, k);
      }
    }
  }

  lemma NameOfFit(c: Crypto, name: string, keyset: Json, k: nat) returns (i: nat)
    requires FirstFit(c, name, keyset, k)
    ensures i < |ALGORITHMS| && ALGORITHMS[i].id == name && (ALGORITHMS[i].keyId == "HS" <==> name == "HS256")
  {
    hide Leaves;
    NamesDiffer();
    i := if name == "RS256" then 0 else if name == "RS128" then 1 else if name == "RS64" then 2
         else if name == "DS256" then 3 else if name == "DS128" then 4 else 5;
  }

  /** The verifier's choice. */
  lemma VerifierExactly(c: Crypto, keyset: Json, name: string)
    ensures var r := Verifier(c, Some(keyset), name);
            && (r.Ok? <==> exists k: nat :: FirstFit(c, name, keyset, k))
            && (forall k: nat :: FirstFit(c, name, keyset, k) ==>
                  r.Ok? && r.value.1 == Leaves(keyset)[k] && r.value.0.id == name && (r.value.0.keyId == "HS" <==> name == "HS256"))
  {
    hide FindKey, Leaves, Fits;
    if Verifier(c, Some(keyset), name).Ok? {
      VerifierIsInTable(c, keyset, name, 0, UnknownAlgorithm);
      var alg := Verifier(c, Some(keyset), name).value.0;
      var j :| 0 <= j < |ALGORITHMS| && ALGORITHMS[j] == alg;
      FindsFirstFit(c, j, keyset);
    }
    forall k: nat | FirstFit(c, name, keyset, k)
      ensures var r := Verifier(c, Some(keyset), name);
              r.Ok? && r.value.1 == Leaves(keyset)[k] && r.value.0.id == name && (r.value.0.keyId == "HS" <==> name == "HS256")
    {
      var i := NameOfFit(c, name, keyset, k);
      FindsFirstFit(c, i, keyset);
      VerifierSkips(c, Some(keyset), i, 0, UnknownAlgorithm);
    }
  }

  /** The signer's choice: RSA before DSA before HMAC, always the strongest digest, and the first key that fits. */
  lemma SignerExactly(c: Crypto, keyset: Json)
    ensures var r := Signer(c, keyset);
            && (r.Ok? <==> SomeFits(c, "RS256", keyset) || SomeFits(c, "DS256", keyset) || SomeFits(c, "DS128", keyset)
                           || SomeFits(c, "HS256", keyset))
            && (r.Ok? ==>
                  && r.value.0.id == (if SomeFits(c, "RS256", keyset) then "RS256" else if SomeFits(c, "DS256", keyset) then "DS256"
                                      else if SomeFits(c, "DS128", keyset) then "DS128" else "HS256")
                  && forall k: nat :: FirstFit(c, r.value.0.id, keyset, k) ==> r.value.1 == Leaves(keyset)[k])
  {
    hide FindKey, Leaves, SignerFrom, Fits, SomeFits;
    NamesDiffer();
    FindsFirstFit(c, 0, keyset);
    FindsFirstFit(c, 1, keyset);
    FindsFirstFit(c, 2, keyset);
    FindsFirstFit(c, 3, keyset);
    FindsFirstFit(c, 4, keyset);
    FindsFirstFit(c, 5, keyset);
    DigestsAlike(c, keyset);
    if Signer(c, keyset).Ok? {
      SignerIsInTable(c, keyset, 0, UnknownAlgorithm);
    } else {
      SignerFails(c, keyset, 0, UnknownAlgorithm);
    }
  }

  lemma {:induction false} SignerFails(c: Crypto, keyset: Json, i: nat, err: BIDError)
    requires i <= |ALGORITHMS| && SignerFrom(c, keyset, i, err).Err?
    ensures forall j :: i <= j < |ALGORITHMS| ==> FindKey(c, ALGORITHMS[j], keyset).Err?
    decreases |ALGORITHMS| - i
  {
    hide FindKey;
    if i < |ALGORITHMS| {
      SignerFails(c, keyset, i + 1, FindKey(c, ALGORITHMS[i], keyset).error);
    }
  }

  /** An RSA key goes with every digest. */
  lemma DigestsAlike(c: Crypto, keyset: Json)
    ensures SomeFits(c, "RS128", keyset) == SomeFits(c, "RS64", keyset) == SomeFits(c, "RS256", keyset)
  {
    hide Leaves;
    NamesDiffer();
    forall k: nat
      ensures FirstFit(c, "RS128", keyset, k) == FirstFit(c, "RS64", keyset, k) == FirstFit(c, "RS256", keyset, k)
    {
    }
  }
}
