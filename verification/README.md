# A verified model of libbrowserid

libbrowserid generates and verifies BrowserID assertions, and mech_browserid turns them into a GSS
security mechanism. This project models the parts that keep state across logins and the hand-written
wire codecs in Dafny 4.11, and proves what they guarantee. `dafny verify dfyconfig.toml` checks all of it.

Code that the library writes as expressions is a function. Code that it writes as loops, buffer stores or
field updates is a method, proved equal to a function on values; the theorems are about that function.

| module | what it models |
|---|---|
| `Base64`, `GssBase64` | the two base64 codecs |
| `Jwt`, `BackedAssertion` | compact JSON web signatures and the `~`-separated backed assertion, parsed in place |
| `KeySet`, `Spn`, `Authority` | key selection, host SPN canonicalisation, authority documents and delegation |
| `Identity`, `Response` | key agreement, and what passes between the parties after an assertion |
| `Ticket`, `ReplayCache`, `Entries` | tickets, the replay cache that stores them, and the fields of an entry |
| `Verify`, `Justification` | the verification decision for an initiator's assertion and what it means |
| `Subject`, `RpDecision` | the decision for a relying party's response, with the names it must carry, and what it means |
| `RpRuns`, `Lineage`, `Replay` | whole runs of a relying party: replay, renewal chains |
| `TwoParty`, `Sessions` | client and relying party together: key agreement over whole runs, delivered responses, the extra round trip |
| `KeySchedule`, `ClientTickets`, `Completeness` | where every key comes from, which ticket a client finds, and what an exchange needs to go through |
| `Acceptor`, `Initiator`, `Handshake` | the GSS state machines, alone and composed |
| `Transfer`, `CacheStore` | context export and import; the memory cache, its iterator and purge |
| `Json`, `Crypto`, `Wrappers` | JSON values, cryptography as functions with laws, results and error codes |
| `Consistency` | an instance of the laws that are assumed of the JSON codec |

## Main results

- **Key agreement** (`TwoParty.KeyAgreement`, `Sessions.HonestReauthAccepted`). In every run of full logins,
  re-authentications, purges and arbitrary other traffic in which the relying party accepts no text of a full
  login twice, a ticket id that both sides hold carries one key, so an honest authenticator verifies and both
  ends derive one session secret. With the entry in its window it is accepted if and only if its own text is not
  blocked and the new entry can be made. `Sessions.ReplayReplacesKey` shows what the hypothesis is for.
- **Key schedule** (`KeySchedule.TicketKeysExactly`, `KeySchedule.ReauthKeysExactly`, `KeySchedule.LoginSecret`,
  `KeySchedule.ResponseSigner`). In every run the key of every ticket in the relying party's cache is the one that the
  texts determine: from the Diffie-Hellman secret of the root login, through the nonces of all authenticators since. An
  accepted authenticator carries the HMAC under that key, and a response or round-trip token the HMAC under the
  key that its session's secret leads to (`KeySchedule.SessionResponseExactly`, `KeySchedule.XrtHoldsExactly`).
- **Completeness** (`Completeness.LoginMeetsExactly`, `Completeness.ReauthMeetsExactly`, `Completeness.MadeExactly`,
  `ClientTickets.FoundIsWanted`). What an accepted login or re-authentication still needs for both ends to meet is
  exact, and in every run the ticket that a client uses is the one for the audience it wants.
- **Sessions** (`Sessions.LoginDelivered`, `Sessions.ReauthDelivered`, `Sessions.XrtLoginAgrees`,
  `Sessions.XrtReauthAgrees`). The text of an honest response is accepted exactly within its window and leaves
  the client's cache as the run says, and after an extra round trip both ends hold one new secret.
- **Replay safety** (`RpRuns.ReplaySafety`, `RpRuns.NeverTwice`, `RpRuns.OtherTextExactly`). A text that is
  accepted and recorded is accepted again only at or past the horizon of its entry, and that is told from the text: the
  ticket's lifetime, or the expiry of certificate and assertion (`Replay.NeverBeforeExpiry`,
  `Replay.ReplayedExactly`). Another text of the same assertion (header, payload, signature and signing input alike, in
  its certificates too) is accepted if and only if that text has no unexpired entry of its own. An extra-round-trip
  assertion is exempt, and for full logins `RpRuns.XrtIsExempt` shows that the exemption is total.
- **Lineage and bounded renewal** (`Lineage.Conserved`, `Lineage.RootEntry`, `Lineage.ReauthRests`,
  `Lineage.BoundedRenewal`). Every ticket descends from one full login whose subject, issuer, principal, recorded
  curve, assertion expiry and renewal limit it keeps, and no chain of renewals outlives that login by more than
  renewal lifetime, ticket lifetime and twice the skew. What the steps after the local decision ask is exact for
  full logins (`Lineage.LoginOutcome`) and for authenticators (`Lineage.AuthenticatorOutcome`).
- **The decision** (`Justification.AcceptedExactlyWhenJustified`). `_BIDVerifyLocal` accepts an initiator's
  assertion if and only if its claims hold and it is signed under a certificate of an authoritative issuer, the
  key of a valid X.509 chain, a key that the sender put into the header beside such a chain, or the key of a
  live ticket of the context's curve.
- **The response** (`Response.AcceptedResponseExactly`, `RpDecision.ResponseExactly`, `Subject.SubjectExactly`). The
  client accepts a response if and only if it closes the key agreement, is in its window, carries no audience and
  is signed with the session's key, or is certified, names the wanted service, answers a full login and echoes
  the client's nonce.
- **The handshake** (`Handshake.ComposedHandshake`, `Handshake.EstablishedIsJustified`, `Acceptor.EndsWithinThree`,
  `Initiator.LoopEndsExactly`). The acceptor ends within three tokens; the call that established a live context,
  or moved it to the extra round trip, heard a justified assertion, with a verdict that is no error unless "xrt"
  was asked for; and against an acceptor that asks the library about the text it was sent the
  initiator's loop runs at most twice and the extra round trip stays in step. In every run an authenticator is answered
  with REAUTH_FAILED if and only if its ticket is lost, and then a certificate leads both ends to an established
  context (`Handshake.FallBackExactly`, `Handshake.FallBackCompletes`). The acceptor's context is mutually authenticated
  if and only if that was asked for and a ticket or a certificate vouches for it (`Handshake.MutualExactly`).
- **Signatures and documents** (`KeySet.SignatureExactly`, `KeySet.SignerExactly`, `Justification.LookupExactly`). A
  signature verifies if and only if it holds under the first key of the nested set that goes with the named
  algorithm; a cached authority document serves exactly in its window.
- **Codecs** (`Base64.RoundTrip`, `GssBase64.CrossCodec`, `Jwt.ParseSigned`, `BackedAssertion.UnpackIsSplit`,
  `BackedAssertion.PackRoundTrip`, `Transfer.TransferRoundTrip`), with the exact condition where a round trip or
  a bound fails; and what the codes are: an encoding is the bytes' number in base 64 (`Base64.EncodingIsNumber`), an
  exported context a list of big-endian numbers and strings (`Transfer.LayoutExactly`), a canonical name what stands
  between the first two unescaped separators (`Spn.HostifyExactly`).

## Where the code falls short of the expected property

Each of these is proved with the exact condition under which the code behaves as expected.

- In non-URL mode the encoder writes `XX=A` when one byte is left over, which its own decoder refuses
  (`Base64.RoundTrip`).
- A final token of one digit and one `=` moves the decoder's cursor over the terminating NUL
  (`Base64.OverrunExactly`); such inputs have the pseudo error `CursorOverrun` in the model.
- The packer writes the assertion first while the unpacker takes the last segment as the assertion, so packing
  with certificates comes back rotated (`BackedAssertion.PackUnpack`). The round trip holds exactly when there
  are no certificates, or all are signed over what the assertion is (`BackedAssertion.PackRoundTrip`).
- An assertion with an X.509 chain is verified with its own header as the key set, so the chain's key is used
  exactly when the header has none of "keys", "public-key" and "secret-key" (`Justification.ChainKeyExactly`). A
  sender who adds a secret key of its own choice to anyone's valid chain is accepted
  (`Justification.SenderKeyAccepted`).
- A caller's own buffer receives the decoded bytes exactly when it can hold them all: the decoder's test for a
  full buffer comes too late (`Base64.RoomExactly`; the pseudo error is `BufferOverrun`).
- The replay cache knows texts, not assertions, and an assertion has many texts. The unpacker drops empty segments,
  so an accepted full login is accepted again at once with one more separator in front
  (`RpRuns.AcceptedAgainAtOnce`). The decoder takes both alphabets and reads nothing after a '=', so it is accepted
  again at once with its signature padded, and with anything behind that (`RpRuns.AcceptedRepadded`). Another text
  of an accepted assertion is blocked exactly by its own unexpired entry (`RpRuns.OtherTextExactly`).
- A text is blocked until its ticket or certificate expires, while the decision forgives the skew. So without tickets a
  text passes again between the certificate's expiry and the end of the skew (`Replay.ReplayedExactly`,
  `Replay.SkewReplay`).
- A full login with an extra round trip can be replayed while its assertion is valid, and the replay replaces the
  key of its ticket: the client's key survives exactly if the relying party's new private value leads to the same
  key (`Sessions.ReplayReplacesKey`).
- A certificate that carries `flags` or `crv` keeps them in the ticket entry. Only then can a root ticket look
  renewed (`Lineage.RootEntry`), and the recorded curve is that of the key agreement if and only if the
  certificate names no other (`Lineage.RecordedCurveExactly`); so a ticket of an agreement on P-256 can serve
  contexts on P-521 (`Lineage.CertifiedCurveWins`).
- A response is verified like an assertion with an X.509 chain, so a key that the sender put beside a chain for the
  wanted host is as good as the chain's (`RpDecision.ResponseExactly`, `RpDecision.KeyBesideChainPasses`).
- In a GSS context the usages of a certificate are not compared with anything: whatever they are, they suit a service
  "http", and no other service unless there are none or only "any" (`Subject.UsageExactly`).
- A peer that answers REAUTH_FAILED to an initiator that used no ticket, or that already fell back, keeps the
  initiator in its loop for ever (`Initiator.LoopEndsExactly`).
- A response with a minor status but no error major makes the initiator report that major although the context
  is not established (`Initiator.InitKeeps`). The acceptor sends one when the extra round trip overrides an error
  that came after the local decision, and that error comes exactly in these cases (`Handshake.OddReplyExactly`):
  for a re-authentication, the ticket is past its renewal and its entry has no "exp"
  (`Handshake.OddStatusHappens`); for a full login, the key agreement that the context wants is not offered, or the
  one that a ticket needs cannot be completed. A full login answered with the session's key never gets it.
- An empty token makes the acceptor report an error without releasing the handle (`Acceptor.CallKeeps`).
- The mechanism OID parser of the context importer loads four bytes before it looks at what remains, and its
  bound is a 32-bit sum, so a length that wraps is read past the token unless enough bytes follow that do not
  begin like the mechanism (`Transfer.OverreadExactly`).

## Assumptions

- `Crypto.Lawful`: the digest is injective, ECDH commutes, the SHA-256 based functions yield 32 bytes, and a
  public-key signature verifies under the key that made it (`Crypto.LawsAreConsistent` gives an instance). HMAC
  and KDF are plain functions.
- `Codec.Lawful`: `json_loads` inverts `json_dumps` on objects, and the text has no NUL
  (`Consistency.CodecLawsAreConsistent` gives an instance).
- API calls happen one at a time and the clock does not run backwards. Clocks, nonces, private values, the
  network, X.509 validation, a remote verifier and the user interface are parameters.
- `gssBidMapError` gives every library error an error major and a minor other than REAUTH_FAILED
  (mech_browserid/util_browserid.cpp:374-465).
- A client's curve is one that the library knows (`ClientTickets.KnownCurves`; libbrowserid/bid_context.c:419-432
  lets no other be set).
- An initiator's credential that was not made from a ticket holds an assertion signed with certificates
  (`Handshake.Certified`).
- Names inside an exported context are the bytes that the name exporter makes of them.

## Model

| member | source | states |
|---|---|---|
| `Json.Truncate` | libbrowserid/bid_util.c:448-449 | C division truncates toward zero for either sign |
| `Json.TimestampRoundTrip` | libbrowserid/bid_util.c:433-476 | a stored time is read back unchanged, also a negative one |
| `Json.ReadsSeconds` | libbrowserid/bid_util.c:433-476 | milliseconds are read in whole seconds, and what is no number reads as 0 |
| `Base64.FindPos` | libbrowserid/bid_base64.c:83-99 | the table search finds a character's position in either alphabet and nothing else |
| `Base64.DigitIs` | libbrowserid/bid_base64.c:74-77 | the digits are those of the two alphabets of RFC 4648, in order |
| `Base64.PosIs` | libbrowserid/bid_base64.c:83-99 | the decoder knows exactly the characters of both alphabets, by their place |
| `Base64.ExpandIsEnough` | libbrowserid/bid_base64.c:79-79 | the 4·ceil(n/3)+1 stored characters fit the allocated buffer, and fill it exactly when one byte is left over |
| `Base64.StoreGroup` | libbrowserid/bid_base64.c:144-162 | one iteration stores four characters for three bytes and changes nothing before them |
| `Base64.StoredIsEncoded` | libbrowserid/bid_base64.c:158-167 | the NULs stored inside a short URL block end the string where the encoding ends |
| `Base64.Base64Encode` | libbrowserid/bid_base64.c:111-168 | the encoder's result is the encoding, an error for unknown modes and for sizes over UINT_MAX/4 |
| `Base64.EncodedLength` | libbrowserid/bid_base64.c:131-167 | ceil(4n/3) characters in URL mode, 4·ceil(n/3) otherwise |
| `Base64.EncodedAlphabet` | libbrowserid/bid_base64.c:74-77 | every character of a URL encoding is in the alphabet, so none is a separator |
| `Base64.EncodingIsNumber` | libbrowserid/bid_base64.c:131-167 | the URL encoding spells the bytes, read as one number, in base 64, with zeros in the spare bits |
| `Base64.EncodingIsFilled` | libbrowserid/bid_base64.c:158-167 | the other encodings are the URL one in the standard alphabet, filled up with "=", "==" or "=A" |
| `Base64.Base64UrlTokenDecode` | libbrowserid/bid_base64.c:173-211 | the token decoder's loop computes padding count and value, or refuses |
| `Base64.DecodeInto` | libbrowserid/bid_base64.c:226-266 | the decoder's loop into a buffer of given size: decoded bytes in front, the rest untouched |
| `Base64.RoomExactly` | libbrowserid/bid_base64.c:235-261 | a buffer receives the decoded bytes exactly when it can hold them all |
| `Base64.Base64UrlDecode` | libbrowserid/bid_base64.c:213-266 | into its own buffer it yields the decoding, with room for one more byte |
| `Base64.RoundTrip` | libbrowserid/bid_base64.c:111-266 | decoding inverts encoding for every byte string, except in non-URL mode when one byte is left over |
| `Base64.OverrunExactly` | libbrowserid/bid_base64.c:235-260 | the cursor passes the NUL exactly on a final token of one digit and one '=' |
| `Base64.PaddingIgnored` | libbrowserid/bid_base64.c:235-261 | behind an unpadded text, padding and whatever follows it are not read |
| `GssBase64.Encode64` | mech_browserid/util_base64.c:49-92 | the mechanism's encoder yields the padded encoding, refused over INT_MAX/4 |
| `GssBase64.TokenDecode64` | mech_browserid/util_base64.c:96-116 | the token decoder with its unchecked -1 and its 32-bit wrap |
| `GssBase64.Decode64` | mech_browserid/util_base64.c:118-142 | the decoder's loop into the caller's buffer, with a line feed allowed after each token |
| `GssBase64.Valid64` | mech_browserid/util_base64.c:144-161 | base64Valid holds exactly when base64Decode does not fail |
| `GssBase64.StandardPosIs` | mech_browserid/util_base64.c:39-47 | the decoder knows the standard alphabet by place, and takes any other character for -1 |
| `GssBase64.TokenExactly` | mech_browserid/util_base64.c:96-116 | four characters without padding are read as one number, wrapped if negative |
| `GssBase64.BreaksAreSkipped` | mech_browserid/util_base64.c:118-142 | line feeds after any groups are skipped |
| `GssBase64.CrossCodec` | mech_browserid/util_base64.c:49-142 | padded and URL text of one byte string decode to it under both decoders |
| `Spn.HostifySpn` | libbrowserid/bid_util.c:731-779 | one scan with escapes finds the host, and the buffer of the counted size is filled exactly |
| `Spn.HostifyIdempotent` | libbrowserid/bid_util.c:744-778 | canonicalising twice is canonicalising once |
| `Spn.AliasIsCanonical` | libbrowserid/bid_verify.c:88-116 | the alias rule accepts exactly the canonical form of the expected name, which is its own canonical form |
| `Spn.HostifyExactly` | libbrowserid/bid_util.c:744-778 | the canonical form is "host/" and, in lower case, what lies between the first two unescaped separators, of which the first is a slash; without such a host there is none |
| `Spn.LowerIs` | libbrowserid/bid_util.c:772-774 | lower case is the small letter in the place of a capital one, and nothing else changes |
| `Spn.CaseEqualExactly` | libbrowserid/bid_authority.c:106-112 | names are equal exactly when their characters are, up to the case of letters |
| `Crypto.BinaryRoundTrip` | libbrowserid/bid_util.c:71-99 | a binary value stored in JSON is read back |
| `KeySet.FindKeyIsFirstMatch` | libbrowserid/bid_crypto.c:226-267 | on any nested set the search finds the first matching leaf in depth-first order and fails exactly when none matches |
| `KeySet.FirstMatchIndex` | libbrowserid/bid_crypto.c:186-224 | what "first" means: the least index that matches |
| `KeySet.FindErrors` | libbrowserid/bid_crypto.c:238-266 | which error a search without a match ends in |
| `KeySet.FoundInside` | libbrowserid/bid_crypto.c:238-266 | a key that is found is the set itself, or lies inside it exactly if the set has a container |
| `KeySet.SelectSigningKey` | libbrowserid/bid_jwt.c:263-279 | the signer's loop takes the first algorithm of the table that has a key |
| `KeySet.SelectVerifyingKey` | libbrowserid/bid_jwt.c:365-383 | the verifier's loop considers the entries named like the header's "alg" |
| `KeySet.SameSelection` | libbrowserid/bid_jwt.c:270-289 | told the signer's algorithm, the verifier selects the same entry and key from the same set |
| `KeySet.NamesAreDistinct` | libbrowserid/bid_openssl.c:942-1029 | the names in the algorithm table are distinct |
| `KeySet.NoKeyNoSignature` | libbrowserid/bid_jwt.c:340-399 | without a key no signature verifies |
| `KeySet.FitsExactly` | libbrowserid/bid_crypto.c:186-224 | which algorithm goes with which key: HMAC with a secret key, RSA whatever the digest, DSA by the key size |
| `KeySet.SignatureExactly` | libbrowserid/bid_jwt.c:340-399 | a signature verifies exactly when it is there, the header names an algorithm, and it holds under the first key of the nested set that goes with it |
| `KeySet.SignerExactly` | libbrowserid/bid_jwt.c:263-279 | the signer prefers RSA to DSA to HMAC, the strongest digest and the first key |
| `Jwt.JsonRoundTrip` | libbrowserid/bid_util.c:101-163 | decoding an encoded object gives it back, and the text has no '.' and no '~' |
| `Jwt.JsonStopsAtNul` | libbrowserid/bid_util.c:135-163 | what follows a NUL inside an encoded object is not read |
| `Jwt.ParseCut` | libbrowserid/bid_jwt.c:150-191 | the segments between the written NULs are header, payload and signature, and the separators are restored |
| `Jwt.ParseJWT` | libbrowserid/bid_jwt.c:126-198 | parsing in place equals splitting at the first two dots; on success the copy is the text again |
| `Jwt.HeaderExactly` | libbrowserid/bid_jwt.c:49-122 | a header is accepted exactly when its types are "JWS" and "JWT" and all it calls critical is known |
| `Jwt.MissingSeparators` | libbrowserid/bid_jwt.c:140-163 | which error tells that the first or the second separator is missing |
| `Jwt.MakeSignature` | libbrowserid/bid_jwt.c:200-338 | header, payload and signature are assembled into the compact form |
| `Jwt.SignsExactly` | libbrowserid/bid_jwt.c:247-338 | what signing needs: a key that signs, and header, payload and signature that the encoder takes |
| `Jwt.ParseSigned` | libbrowserid/bid_jwt.c:126-331 | parsing what was signed recovers header, payload, signature and the very signing input |
| `Jwt.SignedVerifies` | libbrowserid/bid_jwt.c:247-399 | what was signed under a key set verifies under it |
| `Jwt.SameToken` | libbrowserid/bid_jwt.c:281-331 | two tokens made with one key set are equal exactly when payloads and signed headers are |
| `Jwt.ParseRepadded` | libbrowserid/bid_jwt.c:150-191 | padding behind an unpadded signature changes neither content nor signing input |
| `BackedAssertion.CutSegment` | libbrowserid/bid_util.c:193-211 | one certificate segment is cut out by a NUL and put back |
| `BackedAssertion.UnpackBackedAssertion` | libbrowserid/bid_util.c:165-237 | the in-place tokeniser's result; on success the buffer is the input again |
| `BackedAssertion.UnpackIsSplit` | libbrowserid/bid_util.c:186-230 | it equals a split on '~': empty inner segments dropped, last one required, at most BID_MAX_CERTS before it |
| `BackedAssertion.UnpackedUnderstood` | libbrowserid/bid_util.c:186-230 | every header in an unpacked text is understood, and it has at most ten certificates |
| `BackedAssertion.TooManyExactly` | libbrowserid/bid_util.c:191-219 | a text is refused for its number of certificates exactly when a separator follows ten of them |
| `BackedAssertion.JoinOfSplit` | libbrowserid/bid_util.c:191-219 | splitting loses nothing and no segment holds a separator |
| `BackedAssertion.LeadingSeparator` | libbrowserid/bid_util.c:191-219 | one more separator in front changes the text and nothing that it unpacks into |
| `BackedAssertion.RepaddedIsSame` | libbrowserid/bid_util.c:186-230 | a text with its signature padded, and anything behind that, is a text of the same assertion |
| `BackedAssertion.PackBackedAssertion` | libbrowserid/bid_util.c:239-309 | signing every token and joining them with a moving cursor in a buffer of the computed size |
| `BackedAssertion.PackUnpack` | libbrowserid/bid_util.c:263-297 | what comes back from a packed assertion: the last token as assertion, the others as certificates |
| `BackedAssertion.TokensAlike` | libbrowserid/bid_util.c:263-276 | the packed tokens are equal exactly when the caller's payloads and signed headers are |
| `BackedAssertion.PackRoundTrip` | libbrowserid/bid_util.c:284-292 | assertion and certificates survive exactly when there are no certificates, or every one has the assertion's payload and signed header |
| `Identity.IdentityObject.SecretAgreement` | libbrowserid/bid_crypto.c:93-126 | the secret is agreed once, of sufficient strength, and kept |
| `Identity.IdentityObject.DeriveSessionSubkey` | libbrowserid/bid_crypto.c:128-174 | a subkey is the KDF of the secret; deriving it settles the secret |
| `Identity.IdentityObject.VerifierKeyAgreement` | libbrowserid/bid_crypto.c:296-330 | the relying party's key pair is made on the client's parameters |
| `Identity.IdentityObject.SetKeyAgreementPublicValue` | libbrowserid/bid_crypto.c:382-411 | the peer's public value replaces the parameters' coordinates; when only "y" is missing, "x" is already replaced |
| `Identity.IdentityObject.DeriveXrtKey` | libbrowserid/bid_xrt.c:42-97 | the round trip's key is derived from the secret and replaces it |
| `Identity.BothSidesAgree` | libbrowserid/bid_crypto.c:93-126 | the two halves of an exchange give one secret |
| `Identity.StrengthExactly` | libbrowserid/bid_crypto.c:489-517 | parameters pass exactly with an elliptic curve that is known and not weaker than the wanted one, in the order P-256, P-384, P-521 |
| `Identity.SecretErrors` | libbrowserid/bid_crypto.c:93-126 | which error tells why there is no secret |
| `Identity.RefusedPeer` | libbrowserid/bid_crypto.c:382-411 | a refused public value changes at most the coordinate that was there |
| `Authority.AuthorityCache.AcquireAuthority` | libbrowserid/bid_authority.c:48-87 | a valid cached document or a fetched one, and storing it changes no later answer |
| `Justification.LookupExactly` | libbrowserid/bid_authority.c:60-82 | a lookup answers the cached document exactly while it is in its window and the cache is on, else what the network does with the HTTP expiry as "exp" |
| `Justification.ServesUntilExpiry` | libbrowserid/bid_authority.c:60-82 | a fetched document serves until its HTTP expiry and the skew are over, then the network is asked again |
| `Authority.AuthorityCache.CheckIssuer` | libbrowserid/bid_authority.c:121-199 | the delegation check, with lookups that fill the cache on the way |
| `Authority.AuthoritativeExactly` | libbrowserid/bid_authority.c:141-193 | accepts exactly the host itself, a secondary authority, or one reached by 1 to MaxDelegations hops; cycles end |
| `Authority.UntrustedUnlessMissing` | libbrowserid/bid_authority.c:158-193 | an issuer that is not authoritative is reported as not trusted, unless a document cannot be had |
| `Ticket.MakeReauthIdentity` | libbrowserid/bid_reauth.c:352-413 | the identity of a ticket: its credential without secrets, and the session key |
| `Ticket.VerifyReauthAssertion` | libbrowserid/bid_reauth.c:618-709 | the ticket check, its order of errors, and the flags raised before each of them |
| `Entries.TicketIdentityExactly` | libbrowserid/bid_reauth.c:365-402 | the identity of a ticket is its credential without key, assertion expiry, flags and audience, of which expiry and audience are kept in private |
| `Justification.TicketFlagsExactly` | libbrowserid/bid_reauth.c:640-672 | which flags the ticket check raises, also before it fails |
| `Ticket.StoreTicketInCache` | libbrowserid/bid_reauth.c:143-220 | the refusals, the client's entry (key, credential with ark), and what stays unchanged on errors |
| `Ticket.AuthenticatorVerifies` | libbrowserid/bid_reauth.c:574-603 | an authenticator signed with a ticket's key unpacks and verifies under it, and both ends derive one session key |
| `ClientTickets.StoredExactly` | libbrowserid/bid_reauth.c:143-220 | where a credential is stored and every field of it |
| `ClientTickets.FoundIsWanted` | libbrowserid/bid_reauth.c:449-492 | in every run the ticket that is used is of the context's curve, in its window, of the wanted identity, and for the wanted audience or, where allowed, its canonical host |
| `Verify.ParseProtocolOpts` | libbrowserid/bid_util.c:692-725 | the option loop raises the named flags |
| `Verify.OptsRaise` | libbrowserid/bid_util.c:706-722 | the four options are raised exactly by "xrt", "ma", "dce" and "ify", anywhere in the list |
| `Lineage.VerdictFlags` | libbrowserid/bid_verify.c:369-445 | the flags of an acceptance: the options as asked, how the text was justified, mutual authentication as the ticket's entry vouches for it |
| `Verify.CertChain` | libbrowserid/bid_verify.c:260-318 | the chain loop, advancing the key from certificate to certificate |
| `Verify.CheckCertificates` | libbrowserid/bid_verify.c:414-420 | issuer check, then chain |
| `Verify.VerifyLocal` | libbrowserid/bid_verify.c:339-457 | the decision for an initiator's assertion and its flags, for every combination of certificates, X.509 header and ticket |
| `Justification.WindowExactly` | libbrowserid/bid_verify.c:50-86 | valid exactly within the skewed window; a missing expiry means issue time plus skew |
| `Justification.WindowErrors` | libbrowserid/bid_verify.c:50-86 | which error tells which end of a window is missed |
| `Justification.AudienceErrors` | libbrowserid/bid_verify.c:128-178 | which error tells what is wrong with audience or channel bindings |
| `Justification.AudienceExactly` | libbrowserid/bid_verify.c:128-178 | accepts exactly a matching audience or alias and matching channel bindings |
| `Justification.ChainExactly` | libbrowserid/bid_verify.c:290-300 | a chain of any length holds exactly when every certificate is in its window and signed by the key before it |
| `Justification.NamesExactly` | libbrowserid/bid_verify.c:219-247 | the names compared are the issuer and what follows the first '@' of the certified mail address |
| `Justification.NameErrors` | libbrowserid/bid_verify.c:219-247 | which error tells that a certificate names no mail address or no issuer |
| `Justification.CertificateExactly` | libbrowserid/bid_verify.c:204-318 | a certificate passes exactly when an issuer authoritative for the mail domain signed it and it is valid |
| `Justification.LapsedCertificate` | libbrowserid/bid_verify.c:302-313 | a certificate outside its window is told apart from an assertion outside its own |
| `Justification.PopulatedExactly` | libbrowserid/bid_identity.c:449-500 | an identity is the certified attributes with the mail address as subject, and in private what the assertion says |
| `Justification.TicketExactly` | libbrowserid/bid_reauth.c:657-686 | a ticket passes exactly when it is live, of the context's curve, has a key and the key signed the authenticator |
| `Justification.ChainKeyExactly` | libbrowserid/bid_verify.c:377-387 | the key that verifies an X.509 assertion is the chain's exactly when the header holds no other key |
| `Justification.ChainVerifies` | libbrowserid/bid_crypto.c:226-267 | a signature of the chain's key verifies under a header without other keys |
| `Justification.SenderKeyAccepted` | libbrowserid/bid_crypto.c:199-202 | a secret key in the header beside a valid chain is enough to be accepted |
| `Justification.AcceptedExactlyWhenJustified` | libbrowserid/bid_verify.c:369-449 | acceptance if and only if the claims hold and one of four justifications does |
| `ReplayCache.RelyingParty.UpdateReplayCache` | libbrowserid/bid_rcache.c:83-209 | the entry built by successive sets, the cache, and the ticket left with the identity |
| `ReplayCache.AdmitInPlace` | libbrowserid/bid_identity.c:93-114 | replay check, key agreement and update, in that order |
| `ReplayCache.VerifyInPlace` | libbrowserid/bid_identity.c:42-123 | BIDVerifyAssertion on objects: argument checks, local or remote verdict, cache and the expiry it hands out |
| `ReplayCache.PassesFromHorizon` | libbrowserid/bid_rcache.c:66-74 | purge and check at one time let an assertion through exactly from its entry's horizon on |
| `ReplayCache.PurgedExactly` | libbrowserid/bid_rcache.c:228-259 | a purge keeps exactly the tickets whose "exp" is to come and the other entries whose "a-exp" is |
| `ReplayCache.RemoteIsLocal` | libbrowserid/bid_identity.c:69-114 | a remote verifier that answers what the local decision would changes nothing |
| `Entries.MintedTicket` | libbrowserid/bid_rcache.c:119-173 | key, assertion expiry, flags, expiry and renewal limit of an issued ticket |
| `Entries.MintedKeeps` | libbrowserid/bid_rcache.c:119-130 | every other attribute is copied |
| `Entries.PlainHasNoArk` | libbrowserid/bid_rcache.c:173-178 | an entry made without a ticket has no key |
| `Entries.PlainExactly` | libbrowserid/bid_rcache.c:173-178 | it holds the time, the assertion's expiry and the certified one, and is made exactly when there is one |
| `Entries.TicketSays` | libbrowserid/bid_rcache.c:180-200 | the ticket handed out holds the digest and the expiry of its entry |
| `Entries.RenewalKeeps` | libbrowserid/bid_reauth.c:674-698 | a renewed ticket keeps all but the volatile fields, is marked, and is made only while renewable |
| `Entries.RenewalLimit` | libbrowserid/bid_rcache.c:104-165 | a renewed ticket has the renewal limit of the one that was used |
| `RpRuns.LocalFlags` | libbrowserid/bid_verify.c:377-445 | whether a text is exempt, and whether it is an authenticator, depend on the text alone |
| `RpRuns.VerdictOpts` | libbrowserid/bid_rp.c:91-96 | the options kept with an identity ask for the extra round trip exactly when the verdict's flags do |
| `RpRuns.RecordedEntry` | libbrowserid/bid_identity.c:103-114 | what an accepted assertion writes: its own entry, or nothing |
| `RpRuns.EntryStays` | libbrowserid/bid_rcache.c:244-249 | from its recording on, an entry is in the cache or its horizon is past |
| `RpRuns.ReplaySafety` | libbrowserid/bid_identity.c:93-101 | a text accepted twice is accepted the second time at or past the recorded horizon, over every run |
| `RpRuns.NeverTwice` | libbrowserid/bid_rcache.c:132-160 | the text of a full login whose assertion expires before its ticket is never accepted twice |
| `Replay.PlainLogin` | libbrowserid/bid_rcache.c:104-178 | without tickets the entry of a full login holds the expiries of its certificate and of its assertion |
| `Replay.NeverBeforeExpiry` | libbrowserid/bid_rcache.c:66-74 | without tickets the text of a full login is in no run accepted again before certificate or assertion expire |
| `Replay.ReplayedExactly` | libbrowserid/bid_rcache.c:66-74 | right after its acceptance a text passes again exactly when the decision still accepts it and its ticket lifetime, or its certificate, is over |
| `Replay.SkewReplay` | libbrowserid/bid_verify.c:50-86 | between the certificate's expiry and the end of the skew it passes again |
| `RpRuns.XrtIsExempt` | libbrowserid/bid_identity.c:93-97 | an extra-round-trip login gets the same answer whatever the cache holds |
| `RpRuns.OtherTextExactly` | libbrowserid/bid_crypto.c:594-625 | another text with the same header, payload, signature and signing input, certificates likewise, is accepted exactly when it has no unexpired entry of its own |
| `RpRuns.AcceptedAgainAtOnce` | libbrowserid/bid_rcache.c:52-75 | an accepted full login with one more separator in front is accepted at once |
| `RpRuns.AcceptedRepadded` | libbrowserid/bid_base64.c:235-235 | an accepted full login is accepted at once with its signature padded, whatever follows the padding |
| `Lineage.Lineage` | libbrowserid/bid_rcache.c:137-173 | every ticket of every reachable cache descends from a full login of the run |
| `Lineage.Conserved` | libbrowserid/bid_reauth.c:365-402 | subject, issuer, principal, curve, assertion expiry and renewal limit stay those of the root; renewed exactly if not the root |
| `Lineage.RootEntry` | libbrowserid/bid_identity.c:449-500 | the root's subject is the certified mail address, its attributes the certified ones, its curve the certified one or else that of the key agreement, its limit login time plus renewal lifetime |
| `Lineage.CertifiedIs` | libbrowserid/bid_verify.c:407-436 | the certified attributes are the certificate's claims, or those of the X.509 subject |
| `Lineage.RecordedCurveExactly` | libbrowserid/bid_crypto.c:425-467 | the recorded curve is that of the key agreement if and only if the certificate names no other |
| `Lineage.CertifiedCurveWins` | libbrowserid/bid_reauth.c:495-514 | a certificate that names P-521 over an agreement on P-256 makes a ticket for P-521 and not for P-256 |
| `Lineage.LoginOutcome` | libbrowserid/bid_identity.c:93-114 | past the local decision a full login is accepted exactly when its text is not blocked, it offers the key agreement that is wanted, and its entry can be made |
| `Lineage.UsedTicket` | libbrowserid/bid_reauth.c:644-686 | an accepted authenticator names a cached entry that has a key |
| `Lineage.AuthenticatorOutcome` | libbrowserid/bid_identity.c:93-114 | past the local decision an authenticator is accepted exactly when its text is not blocked and its ticket is renewable or has an expiry to copy |
| `Lineage.ReauthRests` | libbrowserid/bid_reauth.c:495-514 | an accepted re-authentication rests on a full login whose recorded curve is the context's, and whose key agreement was on it if and only if the certificate names no other |
| `Lineage.BoundedRenewal` | libbrowserid/bid_rcache.c:104-165 | no re-authentication is accepted after login + renewal lifetime + ticket lifetime + twice the skew |
| `Subject.SubjectEqualP` | libbrowserid/bid_identity.c:541-567 | the loop finds the name in a string or a list, without regard to case for hosts |
| `Subject.SrvNameExactly` | libbrowserid/bid_identity.c:574-603 | a service name matches exactly when it splits into the subject's service and host |
| `Subject.OtherNameEqualP` | libbrowserid/bid_identity.c:608-638 | the loop finds a service name that matches |
| `Subject.CheckSubject` | libbrowserid/bid_identity.c:711-809 | the subject check with its order of errors |
| `Subject.SubjectExactly` | libbrowserid/bid_identity.c:745-809 | a host certificate passes exactly by a matching service name, or without any by host name and suitable usage |
| `Subject.UsageExactly` | libbrowserid/bid_identity.c:640-707 | the usages suit exactly when none or only "any" is stated, or a server's outside GSS; in GSS the service alone decides |
| `Subject.HostOfExactly` | libbrowserid/bid_identity.c:711-745 | the host is that of the service principal, or of the URL |
| `Subject.MailExactly` | libbrowserid/bid_identity.c:775-809 | an initiator's certificate passes exactly by its mail address or subject |
| `Subject.SubjectErrors` | libbrowserid/bid_identity.c:711-809 | which error tells why a certificate does not pass |
| `RpDecision.VerifyLocalRp` | libbrowserid/bid_verify.c:339-457 | the same decision under BID_VERIFY_FLAG_RP: certificate, X.509 header or the caller's key |
| `RpDecision.HostIssuedExactly` | libbrowserid/bid_verify.c:204-318 | a host certificate signs exactly when an issuer authoritative for the host issued it and it is valid |
| `RpDecision.ResponseExactly` | libbrowserid/bid_verify.c:369-449 | a response passes exactly when timely and signed in one of four ways, and names the wanted service if certified |
| `RpDecision.KeyBesideChainPasses` | libbrowserid/bid_crypto.c:199-202 | a secret key in the header beside a valid chain for the wanted service is enough |
| `Response.MakeClaims` | libbrowserid/bid_user.c:163-237 | the client's claims carry its public value, binding and options, and the key pair is theirs |
| `Response.MakeResponse` | libbrowserid/bid_rp.c:42-165 | public value, ticket, "jti" and nonce as the mode asks, signed with the certificate, the response key or nothing; its order of errors; and the identity afterwards, also on failure |
| `Response.VerifyResponse` | libbrowserid/bid_rp.c:167-269 | key agreement, decision, reflection, nonce and "jti" in their order; the payload is handed out in any case, and the identity is exact on failure too |
| `Response.AcceptedResponseExactly` | libbrowserid/bid_rp.c:188-252 | a response is accepted exactly when it closes the key agreement, is timely and signed, has no audience, and if certified answers a full login with its nonce |
| `Response.ResponseErrors` | libbrowserid/bid_rp.c:225-246 | which error tells why a response that passes the decision is refused |
| `Response.MakeXrt` | libbrowserid/bid_xrt.c:103-155 | the token is signed with the derived key, which becomes the secret |
| `Response.VerifyXrt` | libbrowserid/bid_xrt.c:157-194 | the token is accepted exactly under the derived key, which becomes the secret |
| `Response.LoginAgrees` | libbrowserid/bid_user.c:115-118 | after a full login both ends share one secret |
| `Response.XrtAgrees` | libbrowserid/bid_xrt.c:57-79 | with one secret and one "jti" the token verifies and both ends replace the secret alike |
| `Response.HonestResponseVerifies` | libbrowserid/bid_rp.c:205-223 | a response signed by a party that shares the client's secret is accepted exactly in its window and without an audience |
| `Response.ResponseJti` | libbrowserid/bid_rp.c:118-129 | a response with a "jti" leaves both ends with it, and the client can derive the key |
| `TwoParty.RpStepKeeps` | libbrowserid/bid_identity.c:80-114 | whatever the relying party is sent, the keys of ticket ids keep their meaning |
| `TwoParty.LoginShares` | libbrowserid/bid_user.c:115-118 | after an accepted full login, with or without a ticket, both ends share one secret |
| `TwoParty.LoginKeyAgrees` | libbrowserid/bid_reauth.c:179-211 | the key the client derives from the response is the one in the relying party's entry |
| `TwoParty.MadeAuthenticator` | libbrowserid/bid_reauth.c:519-616 | an authenticator names the client's ticket, determines the next key and verifies under its own |
| `TwoParty.KeyAgreement` | libbrowserid/bid_rcache.c:140-143 | in every run a ticket id held by both sides carries one key |
| `TwoParty.HonestAuthenticatorVerifies` | libbrowserid/bid_reauth.c:680-686 | an honest authenticator verifies, and both ends derive one session secret |
| `KeySchedule.LoginSecret` | libbrowserid/bid_crypto.c:93-126 | after a full login the relying party's secret is the Diffie-Hellman secret of its private value and the text's point, and there is one exactly when the text opens a strong enough agreement |
| `KeySchedule.ClientLoginSecret` | libbrowserid/bid_crypto.c:382-411 | the client's is that of its own private value and the relying party's public one |
| `KeySchedule.ReauthSecret` | libbrowserid/bid_reauth.c:96-135 | the secret of a re-authentication is the KDF of the ticket's key over the authenticator's nonce |
| `KeySchedule.ClientReauthSecret` | libbrowserid/bid_reauth.c:519-616 | at the client over the nonce it drew, which is the one in the text |
| `KeySchedule.LoginTicketKey` | libbrowserid/bid_crypto.c:128-174 | the key in a root's entry is the KDF of that secret over "ARK" |
| `KeySchedule.RenewedTicketKey` | libbrowserid/bid_rcache.c:137-147 | the key in a renewed entry, which it has exactly if the ticket is renewable |
| `KeySchedule.TicketKeysExactly` | libbrowserid/bid_rcache.c:137-147 | in every run every ticket's key is the one that the texts determine, from the root's Diffie-Hellman secret through all nonces |
| `KeySchedule.ReauthKeysExactly` | libbrowserid/bid_reauth.c:644-709 | in every run an accepted authenticator was signed with that key, and its secret is that key's KDF |
| `KeySchedule.SecretKeyExactly` | libbrowserid/bid_jwt.c:340-399 | a secret key verifies exactly the tokens that carry its HMAC |
| `KeySchedule.ResponseSigner` | libbrowserid/bid_rp.c:98-142 | a response is signed by the certificate, exactly when one is there and asked for, by the session's response key, or by nobody |
| `KeySchedule.JtiExactly` | libbrowserid/bid_rp.c:118-129 | a response gets a "jti" exactly when a round trip is forced or asked for |
| `KeySchedule.SessionResponseExactly` | libbrowserid/bid_rp.c:188-252 | an uncertified response is accepted exactly with the HMAC under the key derived from the client's secret |
| `KeySchedule.RefusedSettles` | libbrowserid/bid_rp.c:188-215 | a response that is refused after its public value was taken over settles the client's secret all the same |
| `KeySchedule.RefusedHalf` | libbrowserid/bid_crypto.c:382-411 | one whose public value lacks "y" leaves its "x" and no secret |
| `KeySchedule.XrtHoldsExactly` | libbrowserid/bid_xrt.c:157-194 | a token of the round trip is accepted exactly with the HMAC under the KDF of the secret over the "jti" |
| `KeySchedule.XrtLoginKey` | libbrowserid/bid_xrt.c:42-97 | after a full login that key comes from the Diffie-Hellman secret at both ends |
| `KeySchedule.XrtReauthKey` | libbrowserid/bid_xrt.c:42-97 | after a re-authentication it comes from the ticket's key and both nonces |
| `Completeness.KeyPacksExactly` | libbrowserid/bid_jwt.c:247-331 | packing under a secret key fails only for size |
| `Completeness.FoundExactly` | libbrowserid/bid_reauth.c:449-492 | a ticket is found exactly when one is filed for the audience or its host |
| `Completeness.MadeExactly` | libbrowserid/bid_reauth.c:519-616 | from a ticket that was found an authenticator is made exactly when the ticket is in its window and of the curve, and fits the encoder |
| `Completeness.StoredWhen` | libbrowserid/bid_reauth.c:143-220 | a ticket is stored exactly when there are audience, subject, secret and curve |
| `Completeness.LoginMeetsExactly` | libbrowserid/bid_rp.c:76-142 | after an accepted full login both ends meet exactly when a key agreement is wanted, the curve is known, and a nonce was sent for a certified response |
| `Completeness.ReauthMeetsExactly` | libbrowserid/bid_rp.c:76-142 | after an accepted re-authentication they meet exactly when no public value is added |
| `Completeness.SessionTextExactly` | libbrowserid/bid_rp.c:98-165 | a response under the session's key is made exactly when there are claims and a secret, and it fits the encoder |
| `Completeness.UnsignedExactly` | mech_browserid/init_sec_context.c:203-245 | without a session key an unsigned response is taken exactly in its window, and asks for no round trip |
| `Completeness.ReadExactly` | mech_browserid/init_sec_context.c:209-222 | a response that verifies is read as it is, and asks for a round trip exactly by a "jti" |
| `Completeness.UnverifiedIsRefused` | mech_browserid/init_sec_context.c:219-226 | with a session key a response that does not verify is refused, also an unsigned one |
| `Completeness.XrtAnswerExactly` | mech_browserid/init_sec_context.c:250-269 | with secret and "jti" the client sends the token whenever it can be encoded |
| `Completeness.StoringSettles` | libbrowserid/bid_reauth.c:179-180 | what storing a ticket does to the client's secret |
| `Completeness.ClientFlagsExactly` | mech_browserid/init_sec_context.c:233-247 | the flags of a stored ticket, bit by bit |
| `Sessions.ReceiveResponse` | mech_browserid/init_sec_context.c:203-275 | status, refusal or acceptance of a response, signed or not; the mutual flag; the ticket is stored under the secret of the login, before the extra round trip replaces it |
| `Sessions.LoginDelivered` | libbrowserid/bid_rp.c:167-269 | the response to a full login is accepted exactly in its window and without an audience, and stores what the run says |
| `Sessions.ReauthShares` | libbrowserid/bid_reauth.c:680-686 | in every run, after an accepted re-authentication both ends share the session secret |
| `Sessions.ReauthDelivered` | libbrowserid/bid_rp.c:167-269 | the same for the response to a re-authentication, in every run |
| `Sessions.XrtLoginAgrees` | libbrowserid/bid_xrt.c:157-194 | after a full login with "xrt" the client's token verifies and both ends hold one new secret |
| `Sessions.XrtReauthAgrees` | libbrowserid/bid_xrt.c:157-194 | the same after a re-authentication with "xrt", in every run |
| `Sessions.HonestReauthAccepted` | libbrowserid/bid_reauth.c:243-350 | an honest authenticator for a live entry is accepted exactly when its text is not blocked and the new entry can be made |
| `Sessions.ReplayReplacesKey` | libbrowserid/bid_identity.c:93-114 | a replayed login with "xrt" is accepted, and leaves the client's key in the entry exactly if the new private value leads to it |
| `Acceptor.SecContext.HearAssertion` | mech_browserid/accept_sec_context.c:178-228 | how a verdict moves status, context flags and GSS flags |
| `Acceptor.SecContext.AcceptInner` | mech_browserid/accept_sec_context.c:113-268 | the state switch, also on the path that is established before it is released; the reply's "jti" is the response's |
| `Acceptor.Handle.AcceptSecContext` | mech_browserid/accept_sec_context.c:270-403 | the wrapper: release on every error except an empty token |
| `Acceptor.CallKeeps` | mech_browserid/accept_sec_context.c:344-399 | after a call: released, established with COMPLETE, or waiting with CONTINUE; the state rank decreases |
| `Acceptor.AwaitingExactly` | mech_browserid/accept_sec_context.c:178-261 | every outcome of a call on a context that awaits an assertion: REAUTH_FAILED, the extra round trip, established, or released; and the GSS flags |
| `Acceptor.RoundTripExactly` | mech_browserid/accept_sec_context.c:213-261 | a context that awaits the round trip is established exactly by a token that verifies |
| `Acceptor.EndsWithinThree` | mech_browserid/accept_sec_context.c:244-259 | every run ends within three tokens; a live handle is then verified, with the round trip proved if asked for |
| `Initiator.LoopEndsExactly` | mech_browserid/init_sec_context.c:316-372 | the loop ends within two iterations, or never, and exactly when never |
| `Initiator.FirstCall` | mech_browserid/init_sec_context.c:285-331 | the first call sends the credential's assertion exactly when every operation succeeds |
| `Initiator.ReplyExactly` | mech_browserid/init_sec_context.c:203-372 | every outcome of a reply, the loop and its fall-back told as one table |
| `Initiator.FallsBack` | mech_browserid/init_sec_context.c:341-363 | REAUTH_FAILED to a context that used a ticket is answered with the certificate's assertion |
| `Initiator.InitiatorHandle.InitSecContext` | mech_browserid/init_sec_context.c:285-400 | the loop and its wrapper; a call ends exactly when the peer lets it, and one that does not leaves the context unchanged |
| `Initiator.InitKeeps` | mech_browserid/init_sec_context.c:374-400 | after a call: released, waiting after one assertion, or established; at most one fall-back; the one exception |
| `Handshake.ModeIsContext` | mech_browserid/accept_sec_context.c:76-82 | the response is no initial one exactly when the context is marked as using a ticket |
| `Handshake.JtiIsFlag` | libbrowserid/bid_rp.c:91-129 | the response carries a "jti" exactly when the verdict moves the acceptor to the extra round trip |
| `Handshake.VerdictsAreFeasible` | libbrowserid/bid_verify.c:369-400 | what the acceptor's invariant relies on is what the library answers, verdict and response |
| `Handshake.EstablishedIsJustified` | mech_browserid/accept_sec_context.c:178-261 | the call that established the context, or moved it to the extra round trip, heard a justified assertion; its verdict is no error without "xrt", and with it the next token verified |
| `Handshake.TurnKeeps` | mech_browserid/init_sec_context.c:328-366 | every message keeps the two machines in step, when the acceptor asks the library about the text on the wire |
| `Handshake.ComposedHandshake` | mech_browserid/init_sec_context.c:250-275 | loop at most twice, one fall-back, round-trip token only when the acceptor waits for it |
| `Handshake.MutualExactly` | mech_browserid/accept_sec_context.c:95-98 | a context is mutually authenticated exactly if asked for, and vouched for by the ticket's entry, or by the certificate that signed the response to a full login |
| `Handshake.XrtIsSent` | mech_browserid/init_sec_context.c:250-269 | in every conversation, it is sent exactly when the acceptor waits and reported no error |
| `Handshake.TurnsRunOut` | mech_browserid/accept_sec_context.c:244-259 | every message leaves fewer to come |
| `Handshake.LossIsReported` | libbrowserid/bid_verify.c:369-412 | the library reports a failed ticket with a recoverable error exactly when the ticket is lost |
| `Handshake.FallBackExactly` | mech_browserid/accept_sec_context.c:194-211 | in every run an authenticator is answered with REAUTH_FAILED exactly when its ticket is gone or has lapsed, or holds and the authenticator is for another audience or has lapsed |
| `Handshake.LossIsAnswered` | mech_browserid/accept_sec_context.c:60-100 | a verdict without an identity is answered without a signature, whenever the answer can be encoded |
| `Handshake.FallBackCompletes` | mech_browserid/init_sec_context.c:316-372 | a lost ticket and an accepted certificate lead both ends to an established context, neither marked as using a ticket |
| `Handshake.OddReplyExactly` | mech_browserid/accept_sec_context.c:218-221 | an "xrt" assertion past the local decision is answered by an error minor under no error major exactly when its ticket or its key agreement fails later; never a full login answered with the session's key |
| `Handshake.LaterFailsExactly` | libbrowserid/bid_identity.c:93-114 | those failures, told from text, context and cache |
| `Handshake.SessionSignedAgrees` | libbrowserid/bid_rp.c:98-112 | a response signed with the session's key exists only if the key agreement can be completed |
| `Handshake.OddStatusHappens` | mech_browserid/init_sec_context.c:216-219 | for an "xrt" re-authentication that happens exactly past renewal without an "exp"; the initiator then reports success without a context |
| `Transfer.Export` | mech_browserid/export_sec_context.c:40-140 | the write cursor ends exactly at the length computed before |
| `Transfer.LayoutExactly` | mech_browserid/export_sec_context.c:84-140 | the token byte for byte, numbers with the most significant byte first |
| `Transfer.HeadExactly` | mech_browserid/import_sec_context.c:162-190 | which fixed parts the importer accepts |
| `Transfer.ImportMech` | mech_browserid/util_mech.c:386-414 | the mechanism parser with its wrapped bound, prefix comparison and cursor |
| `Transfer.MechExactly` | mech_browserid/util_mech.c:386-414 | a mechanism is read exactly when length and bytes are there and it is BrowserID's with something behind it |
| `Transfer.ImportKey` | mech_browserid/import_sec_context.c:51-108 | the key parser keeps cursor and remaining count in step |
| `Transfer.ContextObject.ImportContext` | mech_browserid/import_sec_context.c:162-239 | cursor and remaining count in step, every read in range |
| `Transfer.TransferRoundTrip` | mech_browserid/import_sec_context.c:71-233 | import restores every field exactly when key and encryption type agree and the peer's name is present |
| `Transfer.OverreadExactly` | mech_browserid/util_mech.c:386-414 | only the mechanism parser can read past the token, and exactly on the stated tokens |
| `CacheStore.MemoryCache.SetObject` | libbrowserid/bid_mcache.c:218-266 | set, refused on a read-only cache |
| `CacheStore.MemoryCache.RemoveObject` | libbrowserid/bid_mcache.c:218-276 | remove, also of an absent key, refused on a read-only cache |
| `CacheStore.MemoryCache.FirstObject` | libbrowserid/bid_mcache.c:278-314 | a snapshot and its first entry; an empty cache has neither |
| `CacheStore.IteratorNext` | libbrowserid/bid_cache.c:458-484 | the next entry of the snapshot, and release at the end |
| `CacheStore.Purge` | libbrowserid/bid_cache.c:486-550 | purge is filter: each entry visited once, cookie released once, the live cache ends as the entries failing the predicate |
| `CacheStore.ReplayPurgeIsKept` | libbrowserid/bid_rcache.c:228-259 | the replay cache's purge is that filter |
| `CacheStore.SearchIsLookup` | libbrowserid/bid_reauth.c:466-479 | that search agrees with the client's ticket lookup |
| `CacheStore.MatchTicket` | libbrowserid/bid_reauth.c:421-492 | the iteration finds what a lookup under the key finds |

## Left out

- Remote verification (libbrowserid/bid_rverify.c) and the HTTP clients: network clients. What a remote verifier answers is a parameter, and a partial function from host to document stands for retrieval.
- X.509 chain validation and the attributes of an X.509 subject: parameters of the decision. That an honest certificate-signed response verifies would need a law between the relying party's private key and its chain.
- RSA, DSA, HMAC, KDF, digest and ECDH: functions with the laws listed above.
- File and registry caches: locking and renaming are outside the model, and no claim is made about concurrent updates.
- Allocation failure, reference counts and interleaved verifications.
- The modal session and browser user interface: a certificate-signed assertion enters the client's side as a text that carries its key.
- The inner structure of exported names, Kerberos keys, and the message sequence window of mech_browserid/util_ordering.c, which travels as 192 bytes.
- The remaining GSS calls: credentials, names, message protection and status display are thin wrappers over code that is modelled or foreign.
- Verify.VerifyLocal: is the initiator's branch; the branch under the relying-party flag is RpDecision.VerifyLocalRp.
- Subject.OtherNameEqualP: an element whose "oid" is no string does not match, where the code would compare a null pointer.
- Sessions.ReceiveResponse: takes the reading of the status inside a response as a parameter.
