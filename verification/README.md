# Verified models of the TF-M test code

This project models the self-contained logic of the TF-M test repository in Dafny and proves
what that logic is for. Code that works by updating state is modelled by methods and classes,
each proved against a function of the old state; the theorems are then about those functions.

| part | modules |
|---|---|
| attestation token decoder: a claims tree walked as a flat item stream | `Common`, `Cbor`, `CborCursor`, `CborRefinement`, `SwComponents`, `SwComponentTree`, `SwComponentTheorems`, `SwComponentClaims`, `IatClaims`, `IatTheorems`, `IatMeaning` |
| ECDSA signature parser and Wycheproof bundle writer and reader | `Bytes`, `DerSignature`, `DerRoundTrip`, `WycheproofBundle`, `BundleTheorems`, `BundleMeaning` |
| remote `psa_call` over eRPC | `ErpcCodec`, `ErpcServer`, `ErpcClient` |
| NSID table and TrustZone context shim | `NsidManager`, `TzShim`, `TzTheorems`, `TzOutcomes` |
| buffered log formatter, number and hex text | `DigitText`, `LogText`, `LogMeaning`, `LogFormat`, `HexText` |
| per-thread libspace, flash copy, mailbox statistics | `Libspace`, `FlashCopy`, `MailboxStats` |

`dafny verify dfyconfig.toml` checks everything.

## How to read the results

**Attestation.** `Cbor.Flatten` turns a claims tree into the stream `QCBORDecode_GetNext` hands
out: each item has its own nesting level and that of the next item, and nothing else says where
a container ends. The loops of `qcbor_util.c` and of the token decoder are methods of a cursor,
proved for every stream. `SwComponentTree.GetRefines` then says that on the token of *every*
tree, for *every* index, the flat walk computes `GetTree`, a lookup that sees only the tree.
What a caller gets follows from `GetTree`; where the code differs from its interface, the
difference is stated with the exact condition:

- a container without content makes `qcbor_util_consume_item` swallow the siblings behind it
  (`ConsumeFirst`), and at the end of the token it reads off the stream (`BatchFailsAlike`);
- a component with such a claim inside loses the claims behind it; the fetch is still right iff they
  have their types and repeat what was there (`HollowCut`, with a token in `VersionLost`);
- the component count is the number of members iff nothing before the array is hollow and the first
  hollow claim is not the last one of the token (`CountIsLength`, with tokens in `CountLost`); a hollow
  claim before the array makes every fetch fail (`ArrayHidden`);
- a token without the component array is reported NOT_FOUND, as the header promises, iff it has
  a claim, none of them hollow, and the last one is a scalar (`ArrayMissing`);
- when two claims carry the component label, the count is that of the last array and the fetch walks the
  first, so indexes below the count are never NOT_FOUND iff the last array is not the longer one
  (`CountAgainstIndex`, with a token in `CountBeyondIndex`);
- an index past the array is NOT_FOUND iff a claim follows the array (`IndexWithinCount`);
- a member without content hides itself and all later members (`ContentlessMemberHides`);
- an empty component array is read as if the claims behind it were its members (`EmptyArray`,
  with a concrete token in `EmptyArrayMisread`).

The header says that the string getters set the claim to NULL and record the error in the context
on any failure; the code leaves the claim as it was when the lookup fails and records nothing. The
model follows the code (`prior` is what the caller's variable held before). The client-id range test
of the batch getter is true of every value, so batch and single getter agree iff the integer fits 32
bits; the lifecycle agrees iff it is neither negative nor UINT32_MAX (tokens: `ClientIdDiffers`,
`LifecycleDiffers`). The lifecycle getter tests its local even when nothing was written to it; `stale`
is that local's content. Label 0 ends a list of labels, so a single getter asked for it never looks at
the claims, and its item slot is neither cleared nor written: it judges what the stack held, `junk`
(`LabelZero`). `item_flags` is the set of bit indexes that are set. Label constants come from a header
outside the repository and are parameters, distinct where the source uses them as cases of one switch,
and not 0. `stray` are the slots of the label list that a profile leaves unset.

**Signatures and bundles.** The DER parser sometimes reads bytes behind its input, so memory is a
total function of the offset. Locality is then a theorem with a condition: it holds iff the input
does not end in a zero-length INTEGER (`LocalIff`). The bundle reader is proved on any bundle with
any behaviour of the crypto service, calls numbered so that equal calls may answer differently.
Little-endian target, 32-bit `size_t`.

A function that a method is proved against is pinned a second time without naming it: claims by their
constructors (`ClaimsFetched`, `StringMeaning`, `BatchMeaning`), failures by the stored statuses and the
tests' own flags (`FailuresCounted`, `WrittenFailures`), calls by when they succeed (`TzOutcomes`), texts by
reading them back (`LogMeaning`).

**eRPC.** The codec keeps its first error. The service is any function that keeps each output
within its buffer. Allocation failures follow any pattern. `ErpcClient.PsaCall` compares a remote call with
the local one on every input. `PSA_MAX_IOVEC` is a parameter.

**TrustZone shim.** The answers of the secure side come with each call and are limited only by its
promises: an acquired token is non-zero and not held, or invalid; a held token can be released. The
history of calls is kept beside the state, and the table is proved to be what the history says.

**Log.** `lib/log/tfm_log_raw.h:21` promises the number of characters printed, N. The code counts the
final flush again and returns N + N mod 32 (`LogFormat.Printf`).

**Small parts.** A thread that finds every libspace slot taken gets the slot meant for the time
before the kernel runs, after the error callback. The flash copy succeeds without faults iff the
smaller slot has at least one block of 256 bytes, because the loop bound is an unsigned subtraction; the
image header is MCUboot's 32 bytes. The mailbox average is exact iff ten times the remainder fits 32 bits.

## Model

| member | source | states |
|---|---|---|
| `Cbor.FlattenLaid` | tests_reg/test/secure_fw/suites/attestation/ext/qcbor_util/qcbor_util.c:18-55 | a stream that holds the flattened siblings anywhere has every head at its pre-order place with its level and next level |
| `Cbor.TokenLaid` | tests_reg/test/secure_fw/suites/attestation/attest_token_decode_common.c:549-556 | the token of any tree is the root head followed by its children at level 1 and nothing else |
| `CborCursor.Decoder.GetNext` | tests_reg/test/secure_fw/suites/attestation/ext/qcbor_util/qcbor_util.c:35-45 | the next item and one step, or an error and an item of no type at the end of the stream |
| `CborCursor.Decoder.ConsumeItem` | tests_reg/test/secure_fw/suites/attestation/ext/qcbor_util/qcbor_util.c:18-55 | on every stream the loop stops behind the first item followed by a level below the container's, or fails at the end |
| `CborCursor.Decoder.GetItemsInMap` | tests_reg/test/secure_fw/suites/attestation/ext/qcbor_util/qcbor_util.c:62-126 | one pass records for each label the last claim carrying it, with the error and final position of the walk |
| `CborCursor.Record` | tests_reg/test/secure_fw/suites/attestation/ext/qcbor_util/qcbor_util.c:98-109 | after one more claim every slot holds the last claim with its label |
| `CborCursor.Decoder.DecodeToLabeledItem` | tests_reg/test/secure_fw/suites/attestation/ext/qcbor_util/qcbor_util.c:133-184 | the first item with the label, cursor behind its head, or the error of the walk |
| `CborRefinement.SkipLaid` | tests_reg/test/secure_fw/suites/attestation/ext/qcbor_util/qcbor_util.c:18-55 | a skip passes all siblings and their content and stops exactly behind them iff the level then drops below its bound |
| `CborRefinement.ConsumeFirst` | tests_reg/test/secure_fw/suites/attestation/ext/qcbor_util/qcbor_util.c:18-55 | consuming a sibling is exact iff it is not hollow; a hollow one takes its later siblings with it, or reads on |
| `CborRefinement.SeenPrefix` | tests_reg/test/secure_fw/suites/attestation/ext/qcbor_util/qcbor_util.c:18-55 | the siblings a walk sees are all of them, or those up to and including the first hollow one |
| `CborRefinement.WalkLaid` | tests_reg/test/secure_fw/suites/attestation/ext/qcbor_util/qcbor_util.c:62-126 | a walk over siblings at any depth visits their own claims and nothing nested in them |
| `CborRefinement.SearchToken` | tests_reg/test/secure_fw/suites/attestation/ext/qcbor_util/qcbor_util.c:62-126 | on the token of any tree: the claims visited, the exact error, and that success has read the whole token |
| `CborRefinement.SeekLaid` | tests_reg/test/secure_fw/suites/attestation/ext/qcbor_util/qcbor_util.c:133-184 | decoding up to a label on the stream equals the tree search, including how it fails |
| `CborRefinement.LocateMeaning` | tests_reg/test/secure_fw/suites/attestation/ext/qcbor_util/qcbor_util.c:133-184 | the tree search finds the first claim with the label when nothing before it is hollow, and fails as described when there is none |
| `SwComponents.TakeClaim` | tests_reg/test/secure_fw/suites/attestation/attest_token_decode_common.c:458-511 | one step of the fold over claims: recorded, ignored, or a type error |
| `SwComponents.FoldAppend` | tests_reg/test/secure_fw/suites/attestation/attest_token_decode_common.c:430-528 | folding two runs of claims is folding one after the other, stopping at the first type error |
| `SwComponents.FoldStops` | tests_reg/test/secure_fw/suites/attestation/attest_token_decode_common.c:430-528 | a claim of the wrong type decides the verdict whatever follows it |
| `SwComponents.DecodeSwComponent` | tests_reg/test/secure_fw/suites/attestation/attest_token_decode_common.c:430-528 | the loop gives the fold over the claims of the walk, on every stream |
| `SwComponents.GetSwComponent` | tests_reg/test/secure_fw/suites/attestation/attest_token_decode_common.c:535-605 | the whole fetch on every payload, context error and every failure included |
| `SwComponentTree.GetRefines` | tests_reg/test/secure_fw/suites/attestation/attest_token_decode_common.c:535-605 | the nest-level walk over the flat token computes the tree lookup, for every tree and index |
| `SwComponentTree.FetchLaid` | tests_reg/test/secure_fw/suites/attestation/attest_token_decode_common.c:566-601 | stepping over members in the stream picks the member of that index in the tree |
| `SwComponentTree.DecodeLaid` | tests_reg/test/secure_fw/suites/attestation/attest_token_decode_common.c:430-528 | decoding a map in the stream is the verdict over the map's own claims |
| `SwComponentTree.FetchHere` | tests_reg/test/secure_fw/suites/attestation/attest_token_decode_common.c:557-601 | from the array head: its members, or for an empty array the claims behind it |
| `SwComponentTheorems.FoldMeaning` | tests_reg/test/secure_fw/suites/attestation/attest_token_decode_common.c:458-511 | decoding succeeds iff every known claim has its type; each field then holds the last claim with its label and its flag says so |
| `SwComponentTheorems.NestedIgnored` | tests_reg/test/secure_fw/suites/attestation/attest_token_decode_common.c:430-528 | components that differ only inside their claims decode alike |
| `SwComponentTheorems.PickMeaning` | tests_reg/test/secure_fw/suites/attestation/attest_token_decode_common.c:566-601 | the member at an index by position, past the end, and behind a member without content |
| `SwComponentTheorems.ComponentFetched` | tests_reg/test/secure_fw/suites/attestation/attest_token_decode_common.c:535-605 | a map behind filled members: type error iff a claim up to the first hollow one has a wrong type, error iff map and token end hollow, otherwise exactly these claims (all of them when none is hollow) |
| `SwComponentTheorems.HollowCut` | tests_reg/test/secure_fw/suites/attestation/attest_token_decode_common.c:430-528 | on the token, the fetch gives the component of all the map's claims iff one before the cut is ill-typed, or those behind it are typed, repeat what was there, and the end is found |
| `SwComponentTheorems.FoldUnchanged` | tests_reg/test/secure_fw/suites/attestation/attest_token_decode_common.c:458-511 | further claims leave a component as it is iff they have their types and each field's last one repeats it |
| `SwComponentTheorems.VersionLost` | tests_reg/test/secure_fw/suites/attestation/attest_token_decode_common.c:430-528 | a token whose component loses its version behind an empty array |
| `SwComponentTheorems.CountIsLength` | tests_reg/test/secure_fw/suites/attestation/attest_token_decode_common.c:362-415 | the count is the number of members of the last array with the label when nothing before it is hollow and the first hollow claim is not the token's last; for the only array, iff; which error it is otherwise |
| `SwComponentTheorems.LastArrayMatched` | tests_reg/test/secure_fw/suites/attestation/ext/qcbor_util/qcbor_util.c:62-126 | with nothing hollow before it, the last array with the label is what the search finds |
| `SwComponentTheorems.CountLost` | tests_reg/test/secure_fw/suites/attestation/attest_token_decode_common.c:362-415 | two tokens with one component for which no count is given |
| `SwComponentTheorems.ArrayMatched` | tests_reg/test/secure_fw/suites/attestation/ext/qcbor_util/qcbor_util.c:62-126 | the search finds the array head iff nothing before it is hollow |
| `SwComponentTheorems.ArrayHidden` | tests_reg/test/secure_fw/suites/attestation/attest_token_decode_common.c:535-605 | behind a hollow claim every fetch is NOT_WELL_FORMED |
| `SwComponentTheorems.IndexWithinCount` | tests_reg/test/secure_fw/suites/attestation/attest_token_decode_common.c:566-601 | indexes below the number of members of the first array are never NOT_FOUND, indexes at or above it never succeed; which error they give, hollow claims before the array included |
| `SwComponentTheorems.CountAgainstIndex` | tests_reg/test/secure_fw/suites/attestation/attest_token_decode_common.c:362-415 | with two component arrays the count is that of the last one, and indexes below the count are never NOT_FOUND iff the last array has no more members than the first (indexes from the count on always are, iff it has no fewer) |
| `SwComponentTheorems.CountBeyondIndex` | tests_reg/test/secure_fw/suites/attestation/attest_token_decode_common.c:362-415 | a token with count 2 whose index 1 is NOT_FOUND |
| `SwComponentTheorems.ContentlessMemberHides` | tests_reg/test/secure_fw/suites/attestation/attest_token_decode_common.c:571-585 | a member without content makes itself and all later members NOT_FOUND |
| `SwComponentTheorems.EmptyArray` | tests_reg/test/secure_fw/suites/attestation/attest_token_decode_common.c:557-601 | with an empty array an index succeeds iff the claims behind the array have a map with well-typed claims there that the walk can leave |
| `SwComponentTheorems.EmptyArrayMisread` | tests_reg/test/secure_fw/suites/attestation/attest_token_decode_common.c:557-601 | a token with no components that yields component 0 |
| `SwComponentTheorems.ArrayMissing` | tests_reg/test/secure_fw/suites/attestation/attest_token_decode.h:546-563 | the promised NOT_FOUND is given iff there is a claim, none is hollow and the last is a scalar |
| `SwComponentClaims.ClaimsFetched` | tests_reg/test/secure_fw/suites/attestation/attest_token_decode_common.c:458-511 | in a map without hollow claims the fetch succeeds iff measurement type, version and description are text strings and measurement value and signer id byte strings wherever they occur; each field then has the slice of its last claim and bit 0, 1, 3, 5 or 6 says that there is one |
| `SwComponentClaims.OtherShapes` | tests_reg/test/secure_fw/suites/attestation/attest_token_decode_common.c:535-605 | the error for a token that is no map, a claim with the array's label that is no array, a member that is no map |
| `IatClaims.GetItemInMap` | tests_reg/test/secure_fw/suites/attestation/ext/qcbor_util/qcbor_util.c:191-215 | the last claim with the label, NOT_FOUND without one, or the error of the search; for label 0 what the stack held |
| `IatClaims.GetTopLevelItem` | tests_reg/test/secure_fw/suites/attestation/ext/qcbor_util/qcbor_util.c:222-265 | the claim, after null payload, search, finish and type checks in that order; a null payload is a COSE validation error |
| `IatClaims.GetString` | tests_reg/test/secure_fw/suites/attestation/attest_token_decode_common.c:63-120 | the slice of a string claim, or the error and what the claim is left as; after an error it is NULL iff the context was in error or it was NULL before |
| `IatClaims.GetInt` | tests_reg/test/secure_fw/suites/attestation/attest_token_decode_common.c:127-168 | the signed value of an integer claim, range and type errors |
| `IatClaims.GetUInt` | tests_reg/test/secure_fw/suites/attestation/attest_token_decode_common.c:175-216 | the unsigned value of an integer claim, range and type errors |
| `IatClaims.GetClientId` | tests_reg/test/secure_fw/suites/attestation/attest_token_decode.h:783-803 | the client id with its range test |
| `IatClaims.GetSecurityLifecycle` | tests_reg/test/secure_fw/suites/attestation/attest_token_decode.h:807-826 | the lifecycle, its range test applied even when the lookup failed: then the lookup's error comes back iff the stale local fits 32 bits, and that is what is written |
| `IatClaims.GetIatSimple` | tests_reg/test/secure_fw/suites/attestation/attest_token_decode_common.c:251-355 | the batch result as a function of the claims one search visits, or its error and an empty result |
| `IatClaims.GetNumSwComponents` | tests_reg/test/secure_fw/suites/attestation/attest_token_decode_common.c:362-415 | the count, the explicit no-components claim of the IoT profile, and every error |
| `IatTheorems.SearchFinishes` | tests_reg/test/secure_fw/suites/attestation/ext/qcbor_util/qcbor_util.c:222-265 | on a tree's token the final check adds nothing to a successful search |
| `IatTheorems.LookForClaimed` | tests_reg/test/secure_fw/suites/attestation/ext/qcbor_util/qcbor_util.c:191-215 | when the search succeeds a lookup fails only because no claim carries the label (label 0: because the stack slot is empty) |
| `IatTheorems.LabelZero` | tests_reg/test/secure_fw/suites/attestation/ext/qcbor_util/qcbor_util.c:191-215 | a string getter asked for label 0 reports the stack slot, never a claim |
| `IatTheorems.BatchFailsAlike` | tests_reg/test/secure_fw/suites/attestation/attest_token_decode_common.c:251-355 | the batch fails iff the root is no map or its first hollow claim is its last claim, and every string getter fails with the same error |
| `IatTheorems.StringsAgree` | tests_reg/test/secure_fw/suites/attestation/attest_token_decode_common.c:251-355 | a string claim's flag is set iff its getter succeeds, with the same slice |
| `IatTheorems.ClientIdAgreement` | tests_reg/test/secure_fw/suites/attestation/attest_token_decode_common.c:322-329 | batch and getter agree on the client id iff it is no integer outside 32 bits |
| `IatTheorems.ClientIdDiffers` | tests_reg/test/secure_fw/suites/attestation/attest_token_decode_common.c:322-329 | a token with client id 2^31, where they differ |
| `IatTheorems.LifecycleAgreement` | tests_reg/test/secure_fw/suites/attestation/attest_token_decode_common.c:331-338 | batch and getter agree on the lifecycle iff it is neither negative nor UINT32_MAX |
| `IatTheorems.LifecycleDiffers` | tests_reg/test/secure_fw/suites/attestation/attest_token_decode_common.c:331-338 | a token with lifecycle UINT32_MAX, where they differ |
| `IatMeaning.ClaimedLast` | tests_reg/test/secure_fw/suites/attestation/ext/qcbor_util/qcbor_util.c:62-126 | without hollow claims the content looked at is that of the last claim with the label |
| `IatMeaning.StringMeaning` | tests_reg/test/secure_fw/suites/attestation/attest_token_decode_common.c:63-120 | the text getter returns text strings, the byte-string getter byte strings; NOT_FOUND without a claim, a type error for any other kind |
| `IatMeaning.IntegerMeaning` | tests_reg/test/secure_fw/suites/attestation/attest_token_decode_common.c:127-216 | each integer getter converts the other kind as far as it can, by value; every error |
| `IatMeaning.ClientIdByKind` | tests_reg/test/secure_fw/suites/attestation/attest_token_decode.h:783-803 | the client id is exactly a signed 32-bit integer; every error |
| `IatMeaning.LifecycleByKind` | tests_reg/test/secure_fw/suites/attestation/attest_token_decode.h:807-826 | the lifecycle is exactly an unsigned 32-bit integer; what becomes of the unwritten local after each error |
| `IatMeaning.NoPayload` | tests_reg/test/secure_fw/suites/attestation/ext/qcbor_util/qcbor_util.c:222-265 | a null payload is a COSE validation error for the string getters, and an ill-structured token for the integer getters |
| `IatMeaning.Trailing` | tests_reg/test/secure_fw/suites/attestation/attest_token_decode_common.c:63-168 | items behind the token make a string getter fail, while an integer getter reports another error and still returns the value |
| `IatMeaning.FinishErrors` | tests_reg/test/secure_fw/suites/attestation/ext/qcbor_util/qcbor_util.c:246-255 | of the final check on any stream: an open container is reported before unread items |
| `IatMeaning.NeverOpen` | tests_reg/test/secure_fw/suites/attestation/ext/qcbor_util/qcbor_util.c:246-255 | on any stream from level 0 a successful search leaves no container open, so that error is never given |
| `IatMeaning.BatchMeaning` | tests_reg/test/secure_fw/suites/attestation/attest_token_decode_common.c:289-353 | flag by flag, which labels the batch takes as byte strings and which as text strings, with their slices |
| `IatMeaning.BatchNumbers` | tests_reg/test/secure_fw/suites/attestation/attest_token_decode_common.c:322-338 | flags 5 and 6: any integer as client id, cut to 32 bits; integers below UINT32_MAX as lifecycle |
| `IatMeaning.CountMeaning` | tests_reg/test/secure_fw/suites/attestation/attest_token_decode_common.c:362-415 | the count by the value of the array claim; without it an error, unless in the IoT profile the other claim is the integer 1 |
| `DerSignature.ParseSignature` | tests_reg/test/secure_fw/suites/crypto/crypto_tests_common.c:2913-2971 | verdict and buffer of the in-place parser, length wrap included |
| `DerSignature.ParseSecond` | tests_reg/test/secure_fw/suites/crypto/crypto_tests_common.c:2953-2970 | the second integer goes to the end of the buffer and leaves the rest |
| `DerSignature.ParseEncoded` | tests_reg/test/secure_fw/suites/crypto/crypto_tests_common.c:2913-2971 | a SEQUENCE of two non-empty INTEGERs is accepted iff both fit, with the trimmed bytes right-aligned, whatever follows it in memory |
| `DerSignature.Sound` | tests_reg/test/secure_fw/suites/crypto/crypto_tests_common.c:2921-2970 | an accepted input with two non-zero lengths is exactly that SEQUENCE, and each half has the same unsigned value |
| `DerSignature.SoundSingle` | tests_reg/test/secure_fw/suites/crypto/crypto_tests_common.c:2948-2951 | the single-integer form is exactly one INTEGER, its value in the first half and zero in the second |
| `DerSignature.Local` | tests_reg/test/secure_fw/suites/crypto/crypto_tests_common.c:2921-2970 | unless the input ends in a zero-length INTEGER, verdict and output depend on its own bytes only |
| `DerSignature.DanglingVerdict` | tests_reg/test/secure_fw/suites/crypto/crypto_tests_common.c:2938-2946 | such an input is accepted iff the bytes behind it are not a zero before one with the top bit |
| `DerSignature.LocalIff` | tests_reg/test/secure_fw/suites/crypto/crypto_tests_common.c:2921-2970 | locality holds iff the input does not end in a zero-length INTEGER, with two memories that show the difference |
| `DerSignature.TailHarmless` | tests_reg/test/secure_fw/suites/crypto/crypto_tests_common.c:3860-3864 | parsing in place equals parsing a copy when neither is followed by a zero and a byte with the top bit |
| `DerRoundTrip.RoundTrip` | tests_reg/test/secure_fw/suites/crypto/crypto_tests_common.c:2913-2971 | the DER form of r, s below 256^h is accepted iff its length is in short form, and gives both zero-padded to h bytes |
| `DerRoundTrip.AcceptedIff` | tests_reg/test/secure_fw/suites/crypto/crypto_tests_common.c:2913-2971 | two non-empty INTEGERs are accepted iff each fits its half, a needed leading zero not counted; the halves have the integers' values |
| `DerRoundTrip.SixtyIsEnough` | tests_reg/test/secure_fw/suites/crypto/crypto_tests_common.c:2923-2928 | up to 60 bytes per half every pair is in short form |
| `DerRoundTrip.SixtyOneIsTooMuch` | tests_reg/test/secure_fw/suites/crypto/crypto_tests_common.c:2923-2928 | beyond 60 bytes the largest pair is not |
| `WycheproofBundle.WriteEvent` | tests_reg/test/secure_fw/suites/crypto/scripts/wp_ec_parser.py:88-110 | the bytes appended for one line and the next state of the key flag; a result line is four zero bytes or 6B FF FF FF |
| `WycheproofBundle.WriteBundle` | tests_reg/test/secure_fw/suites/crypto/scripts/wp_ec_parser.py:73-110 | the file written for every stream of lines |
| `WycheproofBundle.ReadRecord` | tests_reg/test/secure_fw/suites/crypto/crypto_tests_common.c:3826-3861 | the moving pointer finds key, message, signature, status and the start of the next record |
| `WycheproofBundle.ChangeKey` | tests_reg/test/secure_fw/suites/crypto/crypto_tests_common.c:3829-3852 | a record with a key destroys the live key and imports the new one; every failure |
| `WycheproofBundle.CheckSignature` | tests_reg/test/secure_fw/suites/crypto/crypto_tests_common.c:3863-3889 | the verdict on one record: rejected encoding, hash failure, verification status |
| `WycheproofBundle.RunTestBin` | tests_reg/test/secure_fw/suites/crypto/crypto_tests_common.c:3797-3919 | outcome and key operations of the loop on any bytes and any crypto behaviour |
| `BundleTheorems.TilesConsume` | tests_reg/test/secure_fw/suites/crypto/crypto_tests_common.c:3901-3907 | the consumed bytes sum to the bundle size, at least 16 for each record |
| `BundleTheorems.CompletedMeaning` | tests_reg/test/secure_fw/suites/crypto/crypto_tests_common.c:3817-3918 | a completed run returns the number of wrong verdicts and of records, and the records fill the bundle |
| `BundleTheorems.KeysBalanced` | tests_reg/test/secure_fw/suites/crypto/crypto_tests_common.c:3826-3918 | on every run at most one key is live at any time; a completed run has destroyed every key it imported |
| `BundleTheorems.SteadyCompletes` | tests_reg/test/secure_fw/suites/crypto/crypto_tests_common.c:3817-3918 | when the crypto service performs every operation the run completes iff the records fill the bundle |
| `BundleTheorems.ParsedAlike` | tests_reg/test/secure_fw/suites/crypto/crypto_tests_common.c:3860-3864 | a signature followed by anything but a zero and a byte with the top bit (so by either status word) parses in place in the bundle as it does on its own |
| `BundleTheorems.WrittenBundle` | tests_reg/test/secure_fw/suites/crypto/scripts/wp_ec_parser.py:73-110 | the written file is group after group, a key length of zero before every test but the first of a group |
| `BundleTheorems.WriteThenRead` | tests_reg/test/secure_fw/suites/crypto/scripts/wp_ec_parser.py:73-110 | reading a written bundle gives the same tests in order and ends at its end; each test has its own group's key iff every group has one, otherwise that of the group before |
| `BundleTheorems.YieldsKeyed` | tests_reg/test/secure_fw/suites/crypto/crypto_tests_common.c:3829-3852 | the reader never has an empty key in force |
| `BundleTheorems.RunWritten` | tests_reg/test/secure_fw/suites/crypto/crypto_tests_common.c:3797-3919 | for any crypto behaviour a completed run of a written bundle counts the wrong verdicts among the tests that were written; it completes when the service performs every operation |
| `BundleMeaning.FailuresCounted` | tests_reg/test/secure_fw/suites/crypto/crypto_tests_common.c:3817-3918 | a completed run of any bundle counts the records whose stored status is not -149 when the encoding is rejected, or else not the answer to verifying hash and signature with the last key at or before the record |
| `BundleMeaning.CompletesIff` | tests_reg/test/secure_fw/suites/crypto/crypto_tests_common.c:3817-3918 | a run completes iff the records fill the bundle and every key change, hash and verification and the last destroy succeed |
| `BundleMeaning.SteadyEnds` | tests_reg/test/secure_fw/suites/crypto/crypto_tests_common.c:3817-3918 | without a failing call a run trips the size assertion iff the records do not fill the bundle |
| `BundleMeaning.KeysImported` | tests_reg/test/secure_fw/suites/crypto/crypto_tests_common.c:3829-3852 | a completed run imports the keys of the records in order, and nothing else |
| `BundleMeaning.WrittenResult` | tests_reg/test/secure_fw/suites/crypto/scripts/wp_ec_parser.py:104-110 | the last four bytes of a written test are 0 when it is valid and -149, least significant byte first, when it is not |
| `BundleMeaning.WrittenFailures` | tests_reg/test/secure_fw/suites/crypto/crypto_tests_common.c:3797-3919 | a completed run of a written bundle counts the valid tests that are rejected or found invalid and the invalid ones found valid |
| `BundleTheorems.EmptyKeyCarries` | tests_reg/test/secure_fw/suites/crypto/crypto_tests_common.c:3829-3832 | a group with an empty key is read with the key of the group before it |
| `ErpcCodec.ListBack` | erpc/generated_files/tfm_erpc_server.cpp:65-82 | a list of binaries is read back from its encoding wherever it stands |
| `ErpcCodec.Codec.WriteList` | erpc/generated_files/tfm_erpc_client.cpp:42-65 | the encoding is appended iff it fits and the status was clean |
| `ErpcCodec.Codec.ReadBinary` | erpc/generated_files/tfm_erpc_client.cpp:76-86 | the binary at the position, or a sticky error and length zero |
| `ErpcServer.ReadBinary` | erpc/generated_files/tfm_erpc_server.cpp:44-62 | the element read and the one block it owns; it fails for want of memory iff the allocation fails and there are bytes to keep |
| `ErpcServer.ReadElements` | erpc/generated_files/tfm_erpc_server.cpp:78-81 | the elements in order and one new block for each that has one, all different |
| `ErpcServer.ReadList` | erpc/generated_files/tfm_erpc_server.cpp:65-82 | the list in the message, and exactly its blocks added to the heap |
| `ErpcServer.FreeList` | erpc/generated_files/tfm_erpc_server.cpp:127-147 | frees every block of the list once and nothing else |
| `ErpcServer.ErpcPsaCall` | erpc/server/erpc_server_wrapper.c:12-42 | the service sees the lists as vectors; its bytes and lengths come back in place, fixed arrays in range |
| `ErpcServer.ReadRequest` | erpc/generated_files/tfm_erpc_server.cpp:289-313 | the request in the message iff it is complete and no allocation that it needs fails; the blocks owned, all different |
| `ErpcServer.AllocHeaders` | erpc/generated_files/tfm_erpc_server.cpp:289-300 | the two list headers, an error iff either allocation fails |
| `ErpcServer.FreeAll` | erpc/generated_files/tfm_erpc_server.cpp:344-360 | the heap is what it was before the request |
| `ErpcServer.Shim` | erpc/generated_files/tfm_erpc_server.cpp:283-363 | for every message and failure pattern each block is freed exactly once; the service runs iff the message is complete and no allocation for a header or a non-empty element fails; the reply is its answer |
| `ErpcClient.RequestBack` | erpc/generated_files/tfm_erpc_client.cpp:256-264 | the server reads back the request the client wrote |
| `ErpcClient.ReadOuts` | erpc/generated_files/tfm_erpc_client.cpp:89-101 | outputs land in the caller's buffers, lengths beside; nothing is touched after an error |
| `ErpcClient.ReadInto` | erpc/generated_files/tfm_erpc_client.cpp:76-101 | each binary replaces the front of its own buffer and leaves the rest |
| `ErpcClient.ReadOut` | erpc/generated_files/tfm_erpc_client.cpp:76-86 | the next binary replaces the front of its buffer, nothing else changes |
| `ErpcClient.PerformRequest` | erpc/generated_files/tfm_erpc_client.cpp:266-268 | the reply arrives iff request and reply fit every buffer and the server allocated everything |
| `ErpcClient.ErpcPsaCallClient` | erpc/generated_files/tfm_erpc_client.cpp:230-298 | status, lengths and bytes of the service's answer, or -1 with the buffers untouched, also when there is no codec for the request |
| `ErpcClient.PsaCall` | erpc/client/erpc_client_wrapper.c:12-47 | a remote call gets through iff it fits every buffer and the server can allocate and send, and then gives what a local call gives; bytes behind each length stay; too many vectors give -129, a failed call -1; on other statuses the lengths stay |
| `NsidManager.Manager.Init` | lib/nsid_manager/tfm_nsid_manager.c:24-34 | every slot is free |
| `NsidManager.Manager.AddEntry` | lib/nsid_manager/tfm_nsid_manager.c:36-58 | the first free slot takes the pair, nothing else changes; every error |
| `NsidManager.Manager.RemoveEntry` | lib/nsid_manager/tfm_nsid_manager.c:60-78 | the first slot with the token becomes free, nothing else changes; every error |
| `NsidManager.Manager.QueryNsid` | lib/nsid_manager/tfm_nsid_manager.c:80-97 | the NSID of the first slot with the token, or 0 |
| `NsidManager.StrCmp` | app_broker/tfm_nsid_map_table.c:46-60 | 0 iff the strings are equal |
| `NsidManager.GetThreadNsid` | app_broker/tfm_nsid_map_table.c:62-78 | the NSID of the table entry with the name, -1 without one |
| `NsidManager.NsidsAssigned` | app_broker/tfm_nsid_map_table.c:28-40 | every thread gets a negative NSID that survives the casts, and no two names share a pre-assigned one |
| `TzOutcomes.NsidByName` | app_broker/tfm_nsid_map_table.c:28-78 | the NSID of every name, -1 for one that is not in the table |
| `TzShim.Shim.InitContextSystem` | lib/nsid_manager/tz_shim_layer.c:43-63 | new state and result of the call |
| `TzShim.Shim.AllocModuleContext` | lib/nsid_manager/tz_shim_layer.c:71-95 | new state, result and requests to the secure side |
| `TzShim.Shim.FreeModuleContext` | lib/nsid_manager/tz_shim_layer.c:102-127 | new state, result and requests to the secure side |
| `TzShim.Shim.LoadContextS` | lib/nsid_manager/tz_shim_layer.c:134-160 | new state, result and requests to the secure side |
| `TzShim.Shim.StoreContextS` | lib/nsid_manager/tz_shim_layer.c:167-188 | new state and result of the call |
| `TzTheorems.AddKeeps` | lib/nsid_manager/tfm_nsid_manager.c:36-58 | adding a new token keeps the table sound, answers for that token and changes no other answer |
| `TzTheorems.RemoveKeeps` | lib/nsid_manager/tfm_nsid_manager.c:60-78 | removing a token keeps the table sound, forgets that token and changes no other answer |
| `TzOutcomes.AddMeaning` | lib/nsid_manager/tfm_nsid_manager.c:36-58 | adding succeeds iff the NSID is negative, the token valid and any slot free, and puts the pair into one free slot |
| `TzOutcomes.RemoveMeaning` | lib/nsid_manager/tfm_nsid_manager.c:60-78 | removing succeeds iff the token is valid and in the table, and frees one slot that had it |
| `TzOutcomes.QueryMeaning` | lib/nsid_manager/tfm_nsid_manager.c:80-97 | the answer is negative iff the token is valid and in the table, and then that slot's NSID; otherwise 0 |
| `TzTheorems.PlayKeeps` | lib/nsid_manager/tz_shim_layer.c:43-188 | every call keeps table, active token, history and thread ids in order |
| `TzTheorems.RunKeeps` | lib/nsid_manager/tz_shim_layer.c:43-188 | so does every run |
| `TzTheorems.TableSafe` | lib/nsid_manager/tz_shim_layer.c:43-188 | after every run from initialisation table tokens are distinct and held, a slot is free iff its token is invalid iff its NSID is 0, the active token is invalid or listed |
| `TzTheorems.LoadsSafe` | lib/nsid_manager/tz_shim_layer.c:134-156 | in every run each load passes the negative NSID of the thread whose allocation gave that token |
| `TzTheorems.LoadTraced` | lib/nsid_manager/tz_shim_layer.c:134-156 | in every run each load goes back to the allocation that returned its token, passes the NSID given there, and nothing released the token in between |
| `TzTheorems.LoadByName` | lib/nsid_manager/tz_shim_layer.c:71-156 | over a whole run a token allocated for a named thread is loaded with that thread's NSID |
| `TzTheorems.AllocByName` | lib/nsid_manager/tz_shim_layer.c:71-95 | through the casts, a token allocated for a named thread is assigned that thread's NSID |
| `TzTheorems.ThreadIdsFresh` | lib/nsid_manager/tz_shim_layer.c:80-85 | in every run thread ids count up from the first, within 1 to 254, none twice |
| `TzTheorems.AllocExhausted` | lib/nsid_manager/tz_shim_layer.c:80-83 | when all ids are used every allocation fails without asking the secure side |
| `TzOutcomes.InitOutcome` | lib/nsid_manager/tz_shim_layer.c:43-63 | success iff the secure side initialises; then all slots free, no active token, ids going on |
| `TzOutcomes.AllocOutcome` | lib/nsid_manager/tz_shim_layer.c:71-95 | after every run an allocation returns the acquired token iff one of 254 ids is left, the NSID is negative, the token valid and a slot free; what it asks and what changes |
| `TzOutcomes.FreeOutcome` | lib/nsid_manager/tz_shim_layer.c:102-127 | after every run a free returns 1 iff the token is in the table; it then releases it, forgets that token only and leaves none active |
| `TzOutcomes.LoadOutcome` | lib/nsid_manager/tz_shim_layer.c:134-160 | after every run a load asks the secure side iff the token is allocated and not released, and makes it active iff that succeeds |
| `TzOutcomes.StoreOutcome` | lib/nsid_manager/tz_shim_layer.c:167-188 | a store returns 1 and leaves no token active iff the secure side saves |
| `LogText.DigitsReadBack` | lib/log/tfm_log_raw.c:50-95 | reading the digits of any number gives it back; only 0 starts with a zero |
| `LogText.WordLength` | lib/log/tfm_log_raw.c:50-95 | at most 10 decimal and 8 hexadecimal digits for 32 bits |
| `LogText.SignedReadBack` | lib/log/tfm_log_raw.c:50-75 | every signed word, the smallest included, is read back from its text |
| `LogMeaning.SignedTags` | lib/log/tfm_log_raw.c:107-111 | %d and %i print a minus iff the number is negative and the decimal digits of its magnitude |
| `LogMeaning.UnsignedTag` | lib/log/tfm_log_raw.c:112-115 | %u prints the decimal digits of the unsigned number |
| `LogMeaning.HexTags` | lib/log/tfm_log_raw.c:116-128 | %x prints small, %X capital hexadecimal digits of the number, %p the former behind 0x |
| `LogMeaning.TextTags` | lib/log/tfm_log_raw.c:129-136 | %s prints the string, %c the low byte |
| `LogMeaning.OtherTags` | lib/log/tfm_log_raw.c:137-143 | a doubled percent sign prints one; a trailing one and an unknown tag print the notice |
| `LogMeaning.PlainText` | lib/log/tfm_log_raw.c:146-149 | text without a percent sign is printed as it is |
| `LogMeaning.FormatAppend` | lib/log/tfm_log_raw.c:97-158 | a format in two pieces prints the text of the first and then that of the second |
| `LogFormat.Formatter.Put` | lib/log/tfm_log_raw.c:26-35 | one character is appended to everything printed; a full buffer is emitted |
| `LogFormat.Formatter.PutString` | lib/log/tfm_log_raw.c:37-48 | the string is appended and counted |
| `LogFormat.CollectDigits` | lib/log/tfm_log_raw.c:64-67 | the scratch buffer holds the digits backwards and is never exceeded |
| `LogFormat.Formatter.PutDigits` | lib/log/tfm_log_raw.c:77-95 | the digits of the number are appended and counted |
| `LogFormat.Formatter.PutDecimal` | lib/log/tfm_log_raw.c:50-75 | the signed or unsigned decimal text is appended and counted |
| `LogFormat.PutConverted` | lib/log/tfm_log_raw.c:106-144 | the text of the argument for each tag is appended and counted |
| `LogFormat.PutElement` | lib/log/tfm_log_raw.c:104-150 | one step through the format: what is printed and what is left always make up the formatted string |
| `LogFormat.Printf` | lib/log/tfm_log_raw.c:97-158 | the chunks concatenate to the formatted string of length N, all but the last have 32 bytes, and the result is N + N mod 32 |
| `LogFormat.LastChunk` | lib/log/tfm_log_raw.c:152-155 | the last flush completes the text, and its length is that of the text modulo 32 |
| `HexText.UnhexHex` | tests_reg/test/secure_fw/suites/crypto/crypto_tests_common.c:3172-3208 | every byte string survives the trip through its text, whatever follows the text |
| `HexText.HexIsHex` | tests_reg/test/secure_fw/suites/crypto/crypto_tests_common.c:3193-3208 | the text of any bytes consists of digits the reader accepts, the letters small |
| `HexText.HexValue` | tests_reg/test/secure_fw/suites/crypto/crypto_tests_common.c:3193-3208 | read as a number of base 16 the text is the big-endian value of the bytes |
| `HexText.BufferToString` | tests_reg/test/secure_fw/suites/crypto/crypto_tests_common.c:3201-3208 | the text of the bytes, terminated, and nothing written behind it |
| `HexText.StringToBuffer` | tests_reg/test/secure_fw/suites/crypto/crypto_tests_common.c:3185-3191 | the bytes the text stands for, and nothing written behind them |
| `Libspace.Space.KernelIsActive` | lib/ext/CMSIS/RTOS2/RTX/Source/rtx_lib.c:734-743 | once seen running, always running |
| `Libspace.Space.PerThread` | lib/ext/CMSIS/RTOS2/RTX/Source/rtx_lib.c:747-770 | slot, table and error callback of one call |
| `Libspace.RunKeeps` | lib/ext/CMSIS/RTOS2/RTX/Source/rtx_lib.c:747-770 | after every call sequence the occupied slots are a prefix with distinct ids, and no occupied slot has changed |
| `Libspace.ExhaustedIff` | lib/ext/CMSIS/RTOS2/RTX/Source/rtx_lib.c:752-763 | exhaustion is reported iff all slots belong to other threads |
| `Libspace.SlotKept` | lib/ext/CMSIS/RTOS2/RTX/Source/rtx_lib.c:747-770 | a placed thread gets the same slot at any later time |
| `Libspace.SlotsApart` | lib/ext/CMSIS/RTOS2/RTX/Source/rtx_lib.c:747-770 | a placed thread's slot is never given to another one |
| `Libspace.NewSlot` | lib/ext/CMSIS/RTOS2/RTX/Source/rtx_lib.c:752-759 | a new thread gets the first slot behind the occupied ones and marks it |
| `Libspace.BeforeKernel` | lib/ext/CMSIS/RTOS2/RTX/Source/rtx_lib.c:764-766 | before the kernel runs every thread gets the extra slot |
| `Libspace.NullShares` | lib/ext/CMSIS/RTOS2/RTX/Source/rtx_lib.c:752-759 | the null id takes no slot and gets the next newcomer's |
| `FlashCopy.CopyImage` | tests_reg/test/bl2/mcuboot/suites/integration/mcuboot_integration_tests.c:64-124 | a successful copy leaves the header erased, the common prefix behind it equal to the source and the rest erased, programs erased bytes only, last block at most 256; without faults it succeeds iff the smaller slot has a block; both areas are closed again in every case |
| `FlashCopy.CopyOpened` | tests_reg/test/bl2/mcuboot/suites/integration/mcuboot_integration_tests.c:84-117 | erase and copy on areas that are open |
| `FlashCopy.CopyBlock` | tests_reg/test/bl2/mcuboot/suites/integration/mcuboot_integration_tests.c:94-104 | one block extends the copied part iff it is inside both slots |
| `FlashCopy.WriteImageHeader` | tests_reg/test/bl2/mcuboot/suites/integration/mcuboot_integration_tests.c:44-62 | on a slot of any content the header is programmed over the first 32 bytes and the rest stays; refused iff it cannot be opened, does not fit or fails; a failed write leaves the area open |
| `FlashCopy.HeaderAfterCopy` | tests_reg/test/bl2/mcuboot/suites/integration/mcuboot_integration_tests.c:90-96 | after a copy the header area is erased, so the header goes in as it is, and the image stays |
| `MailboxStats.CountEmpty` | lib/multi_core/tfm_ns_mailbox_test.c:51-57 | the number of existing slots whose bit is set, as a cardinality |
| `MailboxStats.EmptySlotsExtremes` | lib/multi_core/tfm_ns_mailbox_test.c:51-57 | all slots are counted iff all bits are set, none iff none is |
| `MailboxStats.Stats.Init` | lib/multi_core/tfm_ns_mailbox_test.c:13-23 | a queue given is reset and becomes the one in use; without one nothing changes |
| `MailboxStats.Stats.Reinit` | lib/multi_core/tfm_ns_mailbox_test.c:25-35 | the counters are those after a reinitialisation step, or an error without a queue |
| `MailboxStats.Stats.Update` | lib/multi_core/tfm_ns_mailbox_test.c:37-63 | an undisturbed update adds one transmission and the number of slots that are not empty, and is its sample step followed by its commit step |
| `MailboxStats.Queue.AddUsed` | lib/multi_core/tfm_ns_mailbox_test.c:59-62 | the second locked section is the commit step |
| `MailboxStats.RunKeeps` | lib/multi_core/tfm_ns_mailbox_test.c:25-63 | over every interleaving the counters are count and sum of the committed samples modulo 2^32 |
| `MailboxStats.CountersMeanSamples` | lib/multi_core/tfm_ns_mailbox_test.c:37-63 | short of wrap, used slots are the sum of the samples since reinit and at most slots times transmissions |
| `MailboxStats.CommittedMeaning` | lib/multi_core/tfm_ns_mailbox_test.c:25-63 | the samples that count are those committed since the last reinitialisation, in order, on every interleaving |
| `MailboxStats.SampleMeaning` | lib/multi_core/tfm_ns_mailbox_test.c:46-57 | a sample is the number of slots that are not empty when it is taken |
| `MailboxStats.SampleKept` | lib/multi_core/tfm_ns_mailbox_test.c:46-62 | other threads do not touch a sample before it is committed |
| `MailboxStats.AverageExact` | lib/multi_core/tfm_ns_mailbox_test.c:65-79 | the result is the average cut to tenths iff ten times the remainder does not wrap |
| `MailboxStats.Stats.AverageSlot` | lib/multi_core/tfm_ns_mailbox_test.c:65-79 | the average of the queue in use, cut to tenths unless the product wraps; without a queue or a result pointer nothing changes |

## Left out

- QCBOR, COSE, the crypto service, the eRPC transports and the secure-side context manager: present only as contracts or as functions with any behaviour.
- CBOR that is not well formed is a stream that ends early; tags, indefinite lengths and floating-point items are scalars without content the decoder looks at.
- Reading the JSON lines and hexadecimal text in wp_ec_parser.py: the writer starts from decoded events.
- WycheproofBundle.RunTestBin: bundle offsets are unbounded, so pointer wrap and the signed cast in the source's size assertion are not modelled; keys left live after a SIZE_MAX return are visible in the log but not promised away.
- LogFormat.Printf: the count is unbounded, so it does not overflow a 32-bit int; arguments that do not match the format are undefined in C and excluded.
- HexText.StringToBuffer: characters that are no hexadecimal digits end in the source's assertion and are excluded.
- ErpcServer.ReadList: an element array of non-zero size is taken to be allocated; the source notes such a failure and still writes through the null array.
- ErpcServer.Shim: the model stops (`overrun`) where a message with more than PSA_MAX_IOVEC elements makes the wrapper write past its arrays; message headers and the shims of the other calls are not modelled.
- ErpcServer.ErpcPsaCall: the vectors are values, so aliasing between input and output buffers is not captured.
- ErpcClient.PsaCall: the sum of the two vector counts does not wrap; buffers of one call do not overlap.
- TzTheorems.TableSafe: contexts that stay acquired when the table has no room are held on the secure side and in no slot; nothing is promised about releasing them.
- IatClaims.GetClientId: its label, like those of GetSecurityLifecycle and GetNumSwComponents, is a constant of a header outside the repository and is taken to be non-zero.
- MailboxStats.AverageExact: a transmission count of zero, by which the source divides, is excluded.
- FlashCopy.CopyImage: source and destination are different areas. That the flash driver refuses an access outside an area is a contract of code that is not in the repository; the condition for success rests on it.
- Test bodies that drive PSA services, BL1, FPU and platform code, the OS wrapper, the mailbox RTOS API, the test framework and the suite tables: thin, or about code that is not in the repository.
