# Khipu consensus: verified model

Khipu consensus lets independent witnesses sign one action hash; an action is *canonical* once a threshold of
distinct witnesses has validly signed `allow` over exactly that hash. This project models the whole chain

    statement -> canonical JSON -> DSSE pre-authentication encoding -> signature -> verify_verdict -> tally -> receipt -> verify_receipt

as the Python package implements it, together with the Go and TypeScript implementations, the Byzantine adversary,
the spine fold and the collusion lane. The repository's documentation (`docs/FORMAL.md`) lists safety and liveness as
conjectures; here their operational versions are theorems over every run and every input:

* **Safety** (`Machine.Safety`): in every reachable state, whatever list the adversary draws from what it holds, a
  canonical action has at least `threshold - |compromised|` uncompromised witnesses that really signed `allow` over
  it. `ReceiptTheorems.ReceiptSafety` carries this through `verify_receipt`.
* **Agreement** (`Machine.Agreement`): with honest witnesses allowing one action each and fewer than
  `2 * threshold - |registry|` compromised keys, at most one action ever becomes canonical.
* **In every language** (`LanguageSafety`): safety, agreement and liveness for the Python, Go and TypeScript tallies,
  whatever their base64 decoders and JSON readers accept. Agreement holds across languages: no two verifiers declare
  different actions canonical, although they may disagree about single rows.
* **Liveness** (`Machine.Liveness`, `ReceiptLiveness.ReceiptLives`, `Receipts.AttestClosedForm`): enough honest `allow`s
  make the list of rows on the wire canonical, and no adversarial row undoes it; some receipt drawn from the wire then
  verifies as canonical, but one extra row for a listed organ gets a receipt rejected. For `attest` the count is a closed
  form.
* **The naive counter** (`Tally.NaiveSafeExactly`, `Adversary.StuffingFoolsNaive`): safe at every threshold if and only
  if no organ has two counting rows; every counting row, resubmitted often enough, defeats it.
* **Encodings** (`JsonText`, `Pae`, `KeyOrder`): printing and reading undo each other, canonical text identifies a
  value up to key order and nothing else, the pre-authentication encoding is uniquely decodable.
* **Receipts** (`RoundTrip`, `ReceiptTheorems`, `ReceiptPortability`): what `attest` makes verifies, what a receipt
  claims about itself decides nothing, and a receipt that is printed, sent and read back verifies as the original does.
* **Three languages** (`EncodingAgreement`, `TallyAgreement`, `Disagreements`): exactly when the printers agree, exactly
  when rows whose base64 is decoded alike count alike, and families of inputs on which the languages differ.

## How it is modelled

* Text is `seq<char>`; a character is a Unicode scalar value, and UTF-8 (RFC 3629), UTF-16 and base64 (RFC 4648,
  section 4) are written out. JSON follows RFC 8259; an object is a list of members in insertion order, so sorting does
  real work, and the reader keeps repeated keys until they are collapsed as a Python dict would.
* A signature is symbolic: its bits are read as a key, a message and a nonce, or as junk. Keys are named by their PEM
  text. The layout of the bits is left open: `Signatures.SCHEME` is an arbitrary member of a type, shown to be inhabited,
  of layouts that can be read back. Who may produce which bits is a rule of the adversary machine (`Machine.CanProduce`):
  with a key it holds, anything; otherwise junk, and any bits at all for a key and message that some row on the wire
  already signs, so that a second valid signature of a seen message costs it nothing. Honest keys may also sign any
  body under other payload types. Unforgeability is then an invariant proved over runs (`Machine.StepKeepsInv`) and not
  an assumption. The seven attack generators are shown to be steps of that machine, or choices of the list drawn from it.
* Python, Go and Node accept different texts as base64. Each library's decoder (`Base64.PYTHON`, `Base64.GO`,
  `Base64.NODE`) is an arbitrary function that gives back what the encoder wrote; of other texts nothing is said, so every
  theorem about rows holds for the lenient decoders too. The agreement theorems ask that the decoders agree on the row.
* The JSON readers differ too: Python takes a byte-order mark off, reads `NaN` and UTF-16 and refuses very long integers;
  Go and Node replace invalid UTF-8. Each reader (`JsonReaders.PYTHON`, `JsonReaders.GO`, `JsonReaders.NODE`) is an
  arbitrary function that reads as the grammar says where the text follows RFC 8259 and its value is modest: integers
  below 2^53, nested at most 100 deep. A number that the model cannot write down, such as a fraction, stands as some
  integer; a verifier that asks for a string sees no more of it than that it is a number.
* Go prints integers after a pass through `float64`, and JavaScript's are doubles. Their numerals
  (`JsonText.GO_NUMERALS`, `JsonText.JAVASCRIPT_NUMERALS`) are arbitrary functions, equal to the digits below 2^53.
* A payload type on the wire is missing, `null` or a string. The conversions to a row of each language are modelled,
  with the defaults they put in (`WireRows`).
* Nothing is assumed of SHA-256: it is a parameter, and a theorem that needs it names the pair of inputs that must
  not collide. Time stamps, nonces, keyed hashes and key bytes are parameters too.
* Loops are methods proved against specifications: the tallies against the *set* of organs with a counting row, the
  Go printer and Go verifier against the shared specification, the receipt validators against declarative predicates.

Where code and documentation differ, the code is followed. The Go comments say that it mirrors the other two
implementations; it does not always: it reads object keys without regard to case, takes an empty payload type for the
default one and a missing action hash for the empty string, and both Go and TypeScript take a `null` payload type for a
missing one (`Disagreements`). The three implementations are described as byte-for-byte equal on the same deterministic
test vectors; beyond those, Go escapes five more characters than Python, and TypeScript orders some keys differently
(`EncodingAgreement`). Go's escapes are those of Go 1.22, which `.github/workflows/ci.yml:33` selects; `go/go.mod:3`
admits 1.21, which prints backspace and form feed as six-character escapes.

## Model

| member | source | states |
|---|---|---|
| Utf8.DecodeOfEncode | python/khipu_consensus/__init__.py:30 | every string comes back from its UTF-8 bytes |
| Utf8.EncodeOfDecode | python/khipu_consensus/__init__.py:30 | only the UTF-8 bytes of a string decode to it |
| Base64.DecodeOfEncode | python/khipu_consensus/__init__.py:106 | whichever of the three libraries decodes, base64 of any bytes gives back those bytes, and is empty only for no bytes |
| KeyOrder.LessIsRankOrder | python/khipu_consensus/__init__.py:30 | comparing code points, UTF-8 bytes or UTF-16 units is comparing one rank per character |
| KeyOrder.Trichotomy | go/consensus.go:53 | each key order is a strict total order |
| KeyOrder.Utf8OrderIsCodePointOrder | go/consensus.go:49-53 | comparing the UTF-8 bytes of two keys, as Go does, is Python's code-point order, on all keys |
| KeyOrder.Utf16OrderAgreesExactly | typescript/src/index.ts:24 | TypeScript orders two keys as Python does if and only if they do not clash |
| KeyOrder.BasicKeysNeverClash | typescript/src/index.ts:24 | keys without characters above U+FFFF never clash |
| Json.SortSorted | python/khipu_consensus/__init__.py:30 | sorting distinct keys yields strictly increasing keys |
| Json.SortMembers | python/khipu_consensus/__init__.py:30 | sorting loses, adds and repeats no member |
| Json.SortedUnique | python/khipu_consensus/__init__.py:30 | a sorted list of members is determined by the members |
| Json.SameIffNormal | python/khipu_consensus/__init__.py:28-30 | normal forms are equal exactly for values that differ in key order only, at any depth |
| Json.NormalIdempotent | python/khipu_consensus/__init__.py:28-30 | sorting keys twice is sorting them once |
| Json.CollapseIsDict | python/khipu_consensus/__init__.py:136 | reading repeated keys yields dicts with distinct keys |
| Json.GetOfCollapse | python/khipu_consensus/__init__.py:136-142 | a lookup in a parsed dict finds the last member with that key |
| JsonText.ReadStringOfEscape | python/khipu_consensus/__init__.py:30 | in every dialect a printed string literal reads back as the string |
| JsonText.ReadValueOfPlain | python/khipu_consensus/__init__.py:28-30 | in every dialect the text of a value whose integers are printed digit for digit reads back as the value, and the reader stops at its end |
| JsonText.LoadsOfCanonical | python/khipu_consensus/__init__.py:28-30 | in every dialect canonical text with such integers reads back as the value, up to key order |
| JsonText.CanonicalIffSame | go/consensus.go:46-86 | in every dialect, for values with such integers: canonical texts are equal if and only if the values differ in key order only |
| JsonText.CanonicalJsonIffSame | python/khipu_consensus/__init__.py:28-30 | the same for the bytes of `canonical_json`: insertion order is invisible, everything else is not |
| JsonText.CanonicalIsStable | python/khipu_consensus/witness.py:233-235 | print, read, print gives the first text again, for values with such integers |
| JsonText.SafeIsExact | go/consensus.go:35-44 | integers below 2^53 are printed digit for digit in every dialect |
| JsonReaders.ReadOfPlain | python/khipu_consensus/__init__.py:136 | every language reads the text of a modest value back as that value, whoever printed it |
| JsonReaders.TextIsReadAlike | go/consensus.go:198 | text by the grammar with a modest value is read alike in the three languages |
| JsonReaders.LoadsOfCanonicalJson | python/khipu_consensus/__init__.py:28-30 | `json.loads` of `canonical_json` of a modest value is the value, up to key order |
| Pae.DecodeOfPae | python/khipu_consensus/__init__.py:33-36 | a decoder recovers type and body from every encoding, spaces and digits in them or not |
| Pae.PaeOfDecode | python/khipu_consensus/__init__.py:33-36 | nothing else decodes |
| Pae.PaeInjective | python/khipu_consensus/__init__.py:33-36 | equal encodings mean equal types and equal bodies |
| Pae.PrefixSpelled | python/khipu_consensus/__init__.py:33-36 | the literal prefix bytes are the UTF-8 bytes of the prefix in letters |
| GoEncoding.PAE | go/consensus.go:89-100 | the slice grown append by append is the pre-authentication encoding |
| GoEncoding.WriteCanon | go/consensus.go:46-86 | appends exactly the canonical text, keys in byte order at every depth |
| GoEncoding.WriteMap | go/consensus.go:48-66 | the map loop writes the sorted members of the normal form |
| GoEncoding.WriteSlice | go/consensus.go:67-77 | the slice loop writes the items of the normal form |
| GoEncoding.CanonicalJSON | go/consensus.go:29-44 | returns the UTF-8 bytes of the canonical text, or an error exactly when an integer is out of the range of `float64` |
| KeySort.SortedMemberIsLookup | go/consensus.go:49-65 | sorting keys and looking each up gives the members of the normal form |
| TsEncoding.PaeIsPae | typescript/src/index.ts:29-35 | TypeScript's concatenation is the same encoding |
| TsEncoding.CanonIsCanonical | typescript/src/index.ts:21-26 | `canon` prints the canonical text with keys in UTF-16 order |
| EncodingAgreement.GoTextIsPythonText | go/consensus.go:54-83 | with Go 1.22's escapes, for values whose integers Go prints digit for digit (all below 2^53 are): Go's text is Python's if and only if no string or key holds one of five HTML-sensitive characters, and is five characters longer for each |
| EncodingAgreement.GoSplitsOn | go/consensus.go:78-83 | a string of one such character is printed differently |
| EncodingAgreement.TsTextIsPythonText | typescript/src/index.ts:21-26 | for values whose integers JavaScript prints digit for digit (all below 2^53 are): TypeScript's text is Python's if and only if no object at any depth has two clashing keys |
| EncodingAgreement.TsSplits | typescript/src/index.ts:21-26 | an object with the keys U+E000 and U+10000 is printed differently |
| Signatures.VerifiesIffSigned | python/khipu_consensus/__init__.py:129-135 | bits verify exactly when the key's holder produced them for this message |
| Verdict.LoadsOfBody | python/khipu_consensus/__init__.py:96-101 | a signed body decodes to exactly the statement's fields |
| Verdict.SignedBytesInjective | python/khipu_consensus/__init__.py:96-103 | distinct statements have distinct signed bytes: a signature commits to every field |
| Verdict.VerifyVerdict | python/khipu_consensus/__init__.py:111-146 | what counts is valid, matches the action hash and says `allow`; a valid row has no fault |
| Verdict.CountsMeans | python/khipu_consensus/__init__.py:119-146 | what it takes, exactly, for a row to count, whatever the decoder and the reader accept |
| Verdict.AllowingStatement | python/khipu_consensus/__init__.py:136-144 | a document that allows an action and has a statement's signed bytes is that statement |
| Verdict.VerifyOfSign | python/khipu_consensus/__init__.py:87-146 | a signed row is valid if and only if its signer holds the published key and its organ is named; it counts if it also allows this action |
| Counting.Gap | python/khipu_consensus/adversary.py:288-307 | rows counted one by one exceed distinct organs by the rows marked as duplicates |
| Counting.MarkNeedsTwoRows | python/khipu_consensus/__init__.py:185-190 | a duplicate mark means two counting rows of one organ |
| Counting.CountDistinct | python/khipu_consensus/__init__.py:172-196 | the shared loop, for any check of one entry: the size of the *set* of counting organs, and each later counting row of an organ marked |
| Counting.CountOrgans | python/khipu_consensus/adversary.py:195-214 | the loop of the oracle, for any check: the size of the set of counting organs |
| Tally.Tally | python/khipu_consensus/__init__.py:153-196 | the loop returns the set specification: distinct counting organs against the threshold, later rows of an organ marked |
| Tally.DistinctWitnessTally | python/khipu_consensus/adversary.py:239-276 | the hardened tally is the same specification without the check of the quorum counts |
| Tally.HonestAllowCount | python/khipu_consensus/adversary.py:195-214 | the oracle counts the set of organs with a counting row |
| Tally.NaivePerVerdictTally | python/khipu_consensus/adversary.py:279-308 | the historical tally counts rows |
| Tally.TallyIsSafe | python/khipu_consensus/adversary.py:217-236 | `safety_holds` is true on all inputs, and the tally is canonical exactly with valid counts and enough organs |
| Tally.DistinctIsTallyExactly | python/khipu_consensus/adversary.py:239-276 | when the hardened and the shipped tally differ, exactly |
| Tally.NaiveGap | python/khipu_consensus/adversary.py:279-308 | under valid counts the naive count exceeds the tally's by the rows that the tally marks |
| Tally.NaiveFalseCanonical | python/khipu_consensus/adversary.py:279-308 | the naive tally is falsely canonical at exactly the thresholds between the distinct organs and the rows counted; then an organ has two counting rows |
| Tally.NaiveSafeExactly | python/khipu_consensus/adversary.py:279-308 | the naive tally is safe at every threshold if and only if no organ has two counting rows |
| Tally.OneRowEachIsSafe | python/khipu_consensus/adversary.py:239-308 | a caller's test: on a list with at most one row per organ the naive tally returns exactly the hardened tally's result |
| Tally.TallyOfSameRows | python/khipu_consensus/__init__.py:172-196 | order and repetition of rows change neither organs nor count nor decision |
| Tally.TallyMonotone | python/khipu_consensus/__init__.py:172-196 | more rows never lower the count or undo a canonical decision; the count never exceeds the registry |
| Tally.QuorumsIntersect | python/khipu_consensus/__init__.py:173-195 | two canonical rounds share at least `2 * threshold - registry size` organs |
| Tally.SignedRowCounts | python/khipu_consensus/__init__.py:178-184 | when a signed row counts under a registry, exactly |
| Adversary.ForgedNeverCounts | python/khipu_consensus/adversary.py:105-130 | random signature bits never count |
| Adversary.SignedAttacksCountExactly | python/khipu_consensus/adversary.py:133-154 | impersonation counts only under the victim's key, equivocation only for the other action |
| Adversary.TamperedCountsExactly | python/khipu_consensus/adversary.py:157-174 | a tampered row counts if and only if the genuine one did and nothing was changed |
| Adversary.StuffingFoolsNaive | python/khipu_consensus/adversary.py:182-189 | any counting row resubmitted at least `threshold >= 2` times is canonical to the naive tally, and rejected with a count of one by the shipped tally |
| Machine.StepKeepsInv | python/khipu_consensus/adversary.py:105-189 | every step keeps unforgeability, to whichever library decodes the signature text: honest signing, of verdicts or under another payload type, corruption, injection |
| Machine.RunKeepsInv | python/khipu_consensus/adversary.py:105-189 | the invariant holds in every reachable state |
| Machine.ForgeryIsStep | python/khipu_consensus/adversary.py:105-130 | a forged row is one the adversary can inject |
| Machine.ImpersonationIsStep | python/khipu_consensus/adversary.py:133-154 | so is any row signed with a key it holds |
| Machine.EquivocationIsStep | python/khipu_consensus/adversary.py:145-154 | an honest witness may sign another action, and that is logged |
| Machine.CopyIsStep | python/khipu_consensus/adversary.py:177-179 | replay is a step |
| Machine.VariantIsStep | python/khipu_consensus/adversary.py:177-179 | so is sending a row whose bits verify for a key and message that some row on the wire carries |
| Machine.TamperIsStep | python/khipu_consensus/adversary.py:157-174 | tampering with a held row is a step |
| Machine.StuffingIsDrawn | python/khipu_consensus/adversary.py:182-189 | silence and duplicate stuffing stay within the lists drawn from the pool |
| Machine.CountingRowIsSigned | python/khipu_consensus/__init__.py:111-146 | a counting row in an honest organ's name was signed by it, saying exactly that |
| Machine.Safety | python/khipu_consensus/adversary.py:217-236 | safety over every run and every drawn list |
| Machine.HonestIntersection | python/khipu_consensus/__init__.py:173-195 | two canonical actions share `2 * threshold - registry - compromised` honest witnesses that signed both, among the organs counted in both rounds |
| Machine.Agreement | python/khipu_consensus/__init__.py:173-195 | at most one action becomes canonical under the stated bound |
| Machine.Liveness | python/khipu_consensus/__init__.py:172-196 | enough honest allows make the wire's rows canonical, whatever is added |
| GoTally.VerifyVerdict | go/consensus.go:152-215 | the check filled in step by step is the specification with Go's order of checks, for any decoder and reader |
| GoTally.GoTally | go/consensus.go:221-264 | the loop returns distinct counting organs against the threshold, later rows of an organ marked |
| TsTally.TsVerifyIsPython | typescript/src/index.ts:91-127 | on a row whose base64 and document both languages read alike, for every key and action, TypeScript returns Python's check of that row with `null` payload type read as missing |
| TsTally.TsTally | typescript/src/index.ts:136-169 | the loop returns distinct counting organs against the threshold, later rows of an organ marked |
| TsTally.TsTallyIsPython | typescript/src/index.ts:136-169 | TypeScript's result is Python's, reasons included, on rows whose base64 and documents both languages read alike and whose payload type is not `null` |
| WireRows.PythonRowIsFromDict | python/khipu_consensus/__init__.py:49-59 | `from_dict` of a JSON row, payload type missing, `null` or text, is the row that Python works on |
| TallyAgreement.CountsExactly | go/consensus.go:152-215 | for each of the three languages, whatever its base64 decoder and JSON reader do: a row counts exactly when its payload type passes there, its text decodes there to bytes signed by the registered key, and these read there as this organ allowing this action |
| TallyAgreement.RowsAgreeExactly | go/consensus.go:152-215 | among rows whose base64 the libraries decode alike: one counts alike in all languages exactly when it is not properly signed, or type and that language's own reading grant the vote in all three or in none |
| TallyAgreement.PlainDocuments | go/consensus.go:191-213 | on documents without repeated or respelled keys the readings agree but for a missing action hash |
| TallyAgreement.TalliesAgree | go/consensus.go:221-264 | Python, Go and TypeScript give the same count, decision and flags on every list of rows whose base64 and documents are read alike, with plain documents, a payload type neither empty nor `null`, and a non-empty action hash |
| Disagreements.SignedRowsCountAlike | python/khipu_consensus/__init__.py:87-108 | rows of `sign_verdict` count alike in all three languages, whatever is asked |
| Disagreements.EmptyTypeSplits | go/consensus.go:168-171 | every signed allow with an empty payload type counts in Go, not in Python or TypeScript |
| Disagreements.NullTypeSplits | typescript/src/index.ts:99 | every signed allow with a `null` payload type counts in Go and TypeScript, not in Python |
| Disagreements.VariantKeySplits | go/consensus.go:191-201 | every signed refusal followed by an allowing `Verdict` key counts in Go, not in Python or TypeScript |
| Disagreements.VariantRefusalSplits | go/consensus.go:191-201 | every signed allow followed by a `Verdict` key with any other modest value but `null` counts in Python and TypeScript, not in Go |
| Disagreements.EmptyHashSplits | go/consensus.go:191-213 | every signed allow without an action hash counts, for the empty hash, in Go, not in Python or TypeScript |
| Disagreements.DecodersSplit | python/khipu_consensus/__init__.py:119-127 | a counting row whose payload text is replaced by another non-empty one still counts in exactly the languages whose library decodes the new text to the signed bytes |
| Disagreements.ReadersSplit | go/consensus.go:191-213 | a row that seals any bytes counts exactly in the languages where its type passes and whose reader takes the bytes to say this |
| Disagreements.PartlyReadSplits | typescript/src/index.ts:110 | a signed allow in bytes that only some readers read, and the others refuse, counts exactly in their languages |
| Disagreements.MarkedIsNoDocument | python/khipu_consensus/__init__.py:136 | a statement behind a byte-order mark is no document by the grammar |
| Disagreements.ByteOrderMarkSplits | python/khipu_consensus/__init__.py:136 | every signed allow behind a byte-order mark, which Python's reader takes off and the others refuse, counts in Python, not in Go or TypeScript |
| LanguageSafety.ResultMeans | typescript/src/index.ts:136-169 | in each of the three languages a list of wire rows is canonical exactly with valid quorum counts and enough distinct organs that count there |
| LanguageSafety.CountingWireIsSigned | go/consensus.go:152-215 | a row that counts in any language in an honest organ's name was signed by it, saying exactly that |
| LanguageSafety.SafetyInEveryLanguage | go/consensus.go:221-264 | safety over every run and every drawn list, for each of the three tallies |
| LanguageSafety.IntersectionAcross | typescript/src/index.ts:136-169 | actions canonical in two languages, at two moments, on two lists share `2 * threshold - registry - compromised` organs counted in both that signed both |
| LanguageSafety.AgreementAcross | go/consensus.go:221-264 | under the stated bound no two verifiers, in whatever languages, declare different actions canonical |
| LanguageSafety.LivenessInEveryLanguage | typescript/src/index.ts:136-169 | enough honest allows make one list on the wire canonical to all three tallies, whatever is added to it |
| Witnesses.WitnessRegistry.constructor | python/khipu_consensus/witness.py:101-105 | the registry holds the witnesses added in turn |
| Witnesses.WitnessRegistry.Add | python/khipu_consensus/witness.py:107-108 | a known organ is replaced in its place, a new one goes last; afterwards a lookup finds the new witness for its organ and what it found before for any other |
| Witnesses.WitnessRegistry.Get | python/khipu_consensus/witness.py:110-111 | what is found is registered under that organ; nothing is found exactly when no registered witness has it |
| Witnesses.LookupRegistered | python/khipu_consensus/witness.py:101-111 | the registry holds one witness per organ, the last one added |
| Witnesses.PubkeysSize | python/khipu_consensus/witness.py:116-121 | one published key per witness |
| Receipts.Attest | python/khipu_consensus/witness.py:189-230 | refuses invalid quorum counts; otherwise one entry per witness in order, tallied |
| Receipts.ChecksToPublic | python/khipu_consensus/witness.py:174-186 | one JSON check per recorded check |
| Receipts.CountingOrgansAreVoters | python/khipu_consensus/witness.py:207-215 | the organs that count in an attestation are the voters |
| Receipts.AttestClosedForm | python/khipu_consensus/witness.py:189-230 | count and decision of `attest` in closed form |
| ReceiptChecks.ResolveTrustPolicy | python/khipu_consensus/witness.py:238-266 | resolves if and only if exactly one source is given, every key is named and not blank, and the threshold fits; the policy is then that source's |
| ReceiptChecks.EmbeddedPubkeys | python/khipu_consensus/witness.py:269-285 | the loop yields the claimed keys exactly for well-formed claims, and nothing otherwise |
| ReceiptChecks.ValidateSignatureEntries | python/khipu_consensus/witness.py:288-330 | accepts exactly the valid collections; an error is the first fault, in the source's order of tests and fields, of the first entry at fault |
| ReceiptChecks.VerifyReceipt | python/khipu_consensus/witness.py:333-405 | the composition of the loops is the specification |
| ReceiptTheorems.CanonicalExactly | python/khipu_consensus/witness.py:333-405 | canonical if and only if the gates pass and the trusted threshold of trusted organs is vouched for |
| ReceiptTheorems.ReceiptSafety | python/khipu_consensus/witness.py:333-405 | safety over every run, through receipt verification |
| ReceiptLiveness.ReceiptLives | python/khipu_consensus/witness.py:333-405 | once `threshold` uncompromised trusted witnesses have signed allow, some receipt drawn from the wire verifies as canonical |
| ReceiptLiveness.ExtraRowRejects | python/khipu_consensus/witness.py:288-330 | one more row for an organ already listed, good or not, gets the whole receipt rejected with nothing counted |
| ReceiptTheorems.AdmissionRemovesDuplicates | python/khipu_consensus/witness.py:288-330 | on admitted rows all tallies coincide, nothing is marked and the count is bounded |
| ReceiptTheorems.SignatureErrorExactly | python/khipu_consensus/witness.py:333-405 | the reported signature error is empty exactly for an admitted collection, and otherwise names the first entry that does not fit and its first fault |
| ReceiptTheorems.ClaimsDoNotDecide | python/khipu_consensus/witness.py:333-405 | the receipt's claimed decision, count and checks cannot influence the outcome |
| ReceiptTheorems.ClaimedPolicyOnlyGates | python/khipu_consensus/witness.py:353-370 | claimed threshold, count and keys can only turn a receipt down |
| ReceiptTheorems.DigestIdentifies | python/khipu_consensus/witness.py:233-235 | without a collision of the pair, equal digests are values equal up to key order |
| ReceiptTheorems.PolicyIdentity | python/khipu_consensus/witness.py:376-384 | the policy digest identifies threshold and keys, not the order they are listed in |
| ReceiptPortability.EqualToSame | python/khipu_consensus/__init__.py:141 | Python's equality with a value does not see the key order of that value |
| ReceiptPortability.SameReceiptsVerifyAlike | python/khipu_consensus/witness.py:333-405 | receipts equal up to key order at any depth get the same gates, error, decision, count, checks and digests |
| ReceiptPortability.ReceiptSurvivesTransport | python/khipu_consensus/witness.py:333-405 | a receipt printed as canonical JSON and loaded again verifies as the original does |
| RoundTrip.RegistryResolves | python/khipu_consensus/witness.py:241-266 | a registry resolves if and only if it is proper, to its own keys |
| RoundTrip.AttestVerifies | python/khipu_consensus/witness.py:333-405 | the receipt of `attest` passes all gates and reproduces decision, count, checks and claim |
| RoundTrip.VerifiedClosedForm | python/khipu_consensus/witness.py:189-405 | a verified attestation is canonical exactly with at most `n - threshold` non-voters |
| Spine.RetallyReproduces | python/khipu_consensus/spine.py:112-138 | tallying the input projection again gives the output projection |
| Spine.CountingWitnesses | python/khipu_consensus/spine.py:151-158 | lists the counting checks in order; what is no list of objects raises |
| Spine.CountingIsConserved | python/khipu_consensus/spine.py:151-158 | for an attestation: exactly the voting witnesses, in registry order, distinct, `consensus_count` many |
| Spine.RebindExactly | python/khipu_consensus/spine.py:285-298 | a body built from one receipt rebinds to another if and only if both projections are equal up to key order, and the input is reported exactly when it differs; only the two digested pairs must not collide |
| Spine.BodyOfAttestation | python/khipu_consensus/spine.py:161-212 | the body built from an attestation lists, by default, exactly the voting witnesses in registry order |
| Collusion.TamperingShows | python/khipu_consensus/collusion.py:30-33 | the presented bytes differ exactly when the amount is missing or not `0`, `""`, `[]` |
| Collusion.RunRound | python/khipu_consensus/collusion.py:29-41 | the loop collects exactly the signers of the specification |
| Collusion.TamperedRound | python/khipu_consensus/collusion.py:24-41 | a tampered round is signed by exactly the colluders: repelled below three, caught from three on |
| Collusion.UnchangedRound | python/khipu_consensus/collusion.py:29-41 | an unchanged round is signed by all and never flagged |
| Collusion.CampaignAddsUp | python/khipu_consensus/collusion.py:43-53 | the three outcome counts sum to the rounds |
| Collusion.CampaignOutcome | python/khipu_consensus/collusion.py:43-53 | the three counts of every campaign, exactly |
| Collusion.LaneIsConclusive | python/khipu_consensus/collusion.py:55-65 | for every seed and positive number of rounds the lane is never inconclusive |

## Left out

- How Go and JavaScript print integers from 2^53 on (rounded to a double, from 10^21 on with an exponent) is left open.
- EncodingAgreement.GoTextIsPythonText: takes Go 1.22's escapes; before 1.22 backspace and form feed print differently.
- Printing numbers with fraction or exponent, `NaN` and infinities; values hold integers only.
- What readers make of text beyond the grammar (`NaN`, byte-order marks, other encodings, invalid UTF-8), of integers from 2^53 on (Python refuses those of more than 4300 digits) and of deep nesting (Python refuses it first) is left open.
- Lone surrogates in strings: text is made of Unicode scalar values.
- Which texts beyond the encoder's own each base64 library accepts, and as what; the decoders are left open there.
- ECDSA, SHA-256, HMAC and PEM internals, and private keys that fail to load. A PEM text stands for the key it names; the empty one names none.
- Reason texts beyond an enumeration of reasons; an exception is represented by its kind.
- Quorum counts that are not integers are refused by `tally` and `attest`; their parameters are integers here. `verify_receipt` and the collusion lane do model that refusal.
- Verdict dicts with non-string fields given to `tally` directly; the receipt path, which validates them, is modelled.
- Organs named like inherited properties of a JavaScript object; public keys are a map.
- `WitnessRegistry.from_dict`, `to_json`, file and environment handling, the HTTP service, the SDK and the command line.
- The fuzz loop, reports and key generation of the adversarial suite; the machine replaces them.
- `szl_receipt` is not part of this model: of the spine only the projections, the counting list, the body and the rebind comparisons are, over an arbitrary digest; energy and honesty notes are given.
- The digest stamped onto the collusion lane, its labels and its texts; the sorted list of signers is a set.
- Rekor anchoring, economic slashing, provenance texts other than the receipt's own, version labels.
