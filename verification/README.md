# Verification of the Haldir Python tools

A Dafny 4.11 model of the logic in the repository's Python tools, with proofs. One module models one
component; `dafny verify dfyconfig.toml` checks all of them.

- **Bytes, Decimal, Utf8, Cbor, CborTheorems, CborDecoder**: the deterministic CBOR codec of
  `tools/interop/verify_cose.py` (section 4.2.1 of RFC 8949). Python slices clamp at the end of the buffer and so
  do the model's; the theorems show that the final length test is enough to make decoding canonical. The decoder is
  modelled twice: as a recursive function, and as the loops of the source proved equal to it.
- **Cose, CoseLayout, Edwards, Ed25519, PointDecoding, Completeness, Signatures**: the `COSE_Sign1` envelope (section 4.4 of RFC 9052) and Ed25519
  verification (section 5.1 of RFC 8032) over an arbitrary Edwards curve modulo p, the module's constants, and its
  point decoding beside the RFC's.
- **WorkerShutdown**: admission and shutdown of the child processes of `GhClient`, as a step machine with any
  number of workers, `close` calls and signal handlers, and as an object whose methods are its atomic sections.
- **Capture, CaptureMeaning, CaptureTheorems**: the paged, rate-budgeted capture loop and the telemetry checker that re-derives
  its numbers. The server is an arbitrary oracle.
- **Json, JsonScan, IdentityMatch, StructuralContains**: the explicit-stack JSON scan, its recursive twin, the
  predicate both apply to every dictionary entry, and the budgeted containment relation.
- **BatchFraming**: the parsers of `git cat-file --batch` and `--batch-check` output.
- **KeyExpr, Acl, AclVerifier, AclTheorems, AclMeaning, HaldirAcl**: the ACL compiler and the independent verifier of
  `tools/secure_zenoh.py`. Matrix, principals, realm and session id are parameters; HaldirAcl adds the audited matrix.
- **Publication**: publication of a TLC log and of the record that vouches for it, with a crash after any step.
- **PosixPath, AdvisoryTree**: extraction of the advisory snapshot, an in-place loop over a tree of files.
- **PollTrace, SmokeCampaign**: the log checker of the live smoke test and the campaign that writes the log.
- **BoundedCapture**: the bounded capture loops and the partial-write loop, for every way of cutting the bytes.

What the specifications are made of is stated a second time without them, in literal bytes, texts and numbers or by
an independent definition: encodings and layouts (`Utf8.ValidIffText`, `CoseLayout`), the addition formula
(`Edwards.AddIffSum`), signatures of a key owner (`Signatures.SignedIff`), grants per permission
(`AclMeaning.RouteGrantedIff`), agreement of passes (`CaptureMeaning.AgreeIff`), admission of a member
(`AdvisoryTree.MemberOkIff`), reviewed commands (`PollTrace.OnlyReviewedIff`), identifying keys
(`IdentityMatch.FourKindsOfKey` and its four cases) and containment (`StructuralContains.MutualIff`).

Some results contradict a first reading of the code; each comes with its exact condition:

- With the audited matrix, `verify_router` accepts what `router_config` renders if and only if the session id does
  not start with `command`, although `validate_profile` admits such ids (`HaldirAcl.AuditedAcceptedIff`, with the
  profile of `HaldirAcl.CommandSessionExists`).
- `cbor_decode` on its own returns values for truncated input (`CborTheorems.DecodeAloneClamps`). Its end index lies
  inside the buffer if and only if an encoding stands there (`CborTheorems.EndsInsideIffEncoding`), which is what
  makes `cbor_decode_exact` canonical; the re-encoding test of `verify_envelope` then never fails
  (`Cose.PayloadAlwaysCanonical`).
- `_decodepoint` accepts more than section 5.1.3 of RFC 8032: a y of p or more, and a zero x with the sign bit set
  (`PointDecoding.LargeYAccepted`, `PointDecoding.SignedZeroAccepted`; `PointDecoding.EncodedYs` exhibits strings).
  A decoded point is the RFC's if and only if neither is the case (`PointDecoding.AcceptedIsRfcIff`), and nothing
  the RFC decodes is lost (`PointDecoding.RfcIsAccepted`).
- The derived content type does not determine the message kind: two kinds share it if and only if they are equal up
  to dots and dashes (`Cose.ContentTypeEqualIff`). The external AAD does determine it (`Cose.AadInjective`).
- Setting the shutdown latch does not by itself stop process creation (`WorkerShutdown.LatchAloneDoesNotSeal`). With
  the latch set, nothing is created any more if and only if no worker stands between admission and spawn
  (`WorkerShutdown.LatchSealsIff`); taking the lock afterwards brings that about
  (`WorkerShutdown.SealedCreatesNothing`).
- Structural containment is reflexive exactly on values without NaN (`StructuralContains.ReflexiveIffNaNFree`).
- A campaign captures the Gate's logs without checking the exit code, and the log checker insists on it: the log of a
  completed life cycle is accepted if and only if that capture succeeded
  (`SmokeCampaign.CompletedLogAcceptedIff`), and runs of both kinds exist (`SmokeCampaign.PlainLogAccepted`,
  `SmokeCampaign.UncapturedLogRejected`).
- With a limit of m pages some server with n repositories can be captured if and only if n < 100 m and n <= 1000,
  because a full page always needs a successor (`CaptureTheorems.CapturableIff`).

Hypotheses are named predicates that appear in the statements, never hidden in bodies: `Ed25519.Complete` (no
denominator vanishes on the curve, which follows from `Completeness.NonSquare`, that d is not a square),
`Ed25519.Associative`, `Edwards.Defined` (both denominators of one sum are invertible), `PointDecoding.PrimeLike` and
`RootField` (no zero divisors modulo p, Fermat's little theorem, p = 5 modulo 8, a root of -1),
`Signatures.ExactOrder` (the order of the base point), `IdentityMatch.ReadsIndices` (Python reads an index as decimal
text), `CaptureTheorems.ServedSlowly` and `DropsSlowly` (a GET lowers the quota by at most three). Hashes,
`ed25519_verify` inside the envelope, clocks, chunk sizes, process replies and case folding are parameters of the
members that use them.

## Model

| member | source | states |
|---|---|---|
| Bytes.Slice | tools/interop/verify_cose.py:135-158 | a Python slice never fails; it is the exact range only when its end lies in the buffer |
| Bytes.SliceClamps | tools/interop/verify_cose.py:135-158 | past the end of the buffer it is what is left of it |
| Bytes.LexLeqIff | tools/interop/verify_cose.py:171-172 | the order of encoded map keys: a prefix comes first, otherwise the first byte that differs decides |
| Utf8.ValidIffText | tools/interop/verify_cose.py:157-158 | a text string is accepted if and only if it is the encoding of some sequence of scalar values by the four ranges of RFC 3629, surrogates excluded |
| Utf8.TextInjective | tools/interop/verify_cose.py:206-208 | and that sequence is determined by the bytes |
| CoseLayout.HeadBytes | tools/interop/verify_cose.py:184-193 | the head of every argument up to 2^64, byte by byte in its five widths |
| CoseLayout.AppendixA | tools/interop/verify_cose.py:196-214 | the encoder writes the bytes of appendix A of RFC 8949 for one value of each kind |
| CborTheorems.HeadIsShortest | tools/interop/verify_cose.py:184-193 | the encoder's head is no longer than any of the five forms that can hold the argument, and its first byte carries the major type |
| CborTheorems.HeadCanonical | tools/interop/verify_cose.py:127-150 | a head read without clamping is the very head the encoder writes for its value |
| CborTheorems.DecodeCanonical | tools/interop/verify_cose.py:113-176 | an end index inside the buffer means nothing was clamped anywhere in the recursion: the value is well formed and re-encodes to the bytes consumed |
| CborTheorems.DecodeRoundTrip | tools/interop/verify_cose.py:113-214 | wherever a buffer holds the encoding of a well-formed value, decoding there returns it and the index right after it |
| CborTheorems.RoundTripWithSuffix | tools/interop/verify_cose.py:113-214 | an encoding followed by any suffix decodes to its value and its own length |
| CborTheorems.DecodeExactIffCanonical | tools/interop/verify_cose.py:217-221 | for every byte string: it decodes to v if and only if v is well formed and the string is v's encoding |
| CborTheorems.EncodingPrefixFree | tools/interop/verify_cose.py:196-214 | no encoding is a prefix of another value's, so the encoding is injective |
| CborTheorems.EndsInsideIffEncoding | tools/interop/verify_cose.py:113-176 | `cbor_decode` alone, at any place of any buffer: it ends inside the buffer if and only if an encoding of a well-formed value stands there, and then returns that value |
| CborTheorems.DecodeAloneClamps | tools/interop/verify_cose.py:155-158 | a concrete truncated input that `cbor_decode` accepts and `cbor_decode_exact` rejects |
| CborDecoder.DecodeValue | tools/interop/verify_cose.py:113-176 | the imperative decoder returns what the recursive specification does, errors and end index included, on all inputs |
| CborDecoder.DecodeArray | tools/interop/verify_cose.py:159-164 | the appending loop equals the recursive reading of the items |
| CborDecoder.DecodeMap | tools/interop/verify_cose.py:165-175 | the loop with its previous key equals the recursive reading of the pairs, order failures included |
| CborDecoder.DecodeWhole | tools/interop/verify_cose.py:217-221 | equals the function characterised by DecodeExactIffCanonical |
| Cose.SigStructureLayout | tools/interop/verify_cose.py:237-240 | the signed bytes byte by byte: context string, protected header, AAD, payload, in this order, as section 4.4 of RFC 9052 lays them out |
| CoseLayout.AadLayout | tools/interop/verify_cose.py:233-234 | the AAD in bytes: the kind, ".v", a minus sign for a negative major, and digits that read back as the major |
| CoseLayout.SmallMajors | tools/interop/verify_cose.py:233-234 | a major below ten is one digit: major 1 ends in ".v1" |
| CoseLayout.ContentTypeLayout | tools/interop/verify_cose.py:229-230 | the content type in bytes: "application/", the kind with each dot made a dash, "+cbor" |
| CoseLayout.HeaderLayout | tools/interop/verify_cose.py:259-280 | the protected header in bytes: a map of three, 1 is -8, 3 is the content type, 4 is the kid |
| CoseLayout.EnvelopeLayout | tools/interop/verify_cose.py:245-258 | the envelope in bytes: an array of four, header, empty map, payload and 64-byte signature |
| CoseLayout.FlipLastBitLayout | tools/interop/verify_cose.py:292-294 | the tampered message differs in the lowest bit of its last byte and in nothing else, and flipping back restores it |
| Cose.SigStructureInjective | tools/interop/verify_cose.py:237-240 | equal signed bytes have equal header, AAD and payload |
| Cose.AadInjective | tools/interop/verify_cose.py:233-234 | the AAD determines kind and schema major, whatever dots the kind contains |
| Cose.SignedMessageBindsContext | tools/interop/verify_cose.py:233-240 | one signed message belongs to one header, kind, major and payload |
| Cose.ContentTypeEqualIff | tools/interop/verify_cose.py:229-230 | two kinds share a content type if and only if they are equal up to dots and dashes |
| Cose.ContentTypeCollides | tools/interop/verify_cose.py:229-230 | so a kind with a dot collides with another kind, its own dashed form |
| Cose.HeaderAccepted | tools/interop/verify_cose.py:264-280 | strict key order leaves one header map that passes: three pairs, in order, no duplicate for `dict()` to collapse |
| Cose.AcceptedIff | tools/interop/verify_cose.py:243-296 | acceptance with given parts if and only if the input is the one deterministic envelope for them, the payload decodes, and the signature verifies over the rebuilt structure but not over the tampered one |
| Cose.EnvelopeUnique | tools/interop/verify_cose.py:243-296 | two envelopes accepted for one kind and major with the same kid, payload and signature are identical, whatever keys verified them |
| Cose.PayloadAlwaysCanonical | tools/interop/verify_cose.py:282-284 | the re-encoding comparison cannot fail after strict decoding |
| Edwards.AddOnCurve | tools/interop/verify_cose.py:55-76 | the sum of two curve points is on the curve when both denominators are invertible, for every modulus and every d |
| Edwards.AddIffSum | tools/interop/verify_cose.py:55-61 | where both denominators are invertible, the sum is the one reduced point q with (1+t) q.x = a.x b.y + b.x a.y and (1-t) q.y = a.y b.y + a.x b.x modulo p, t being d a.x a.y b.x b.y |
| Edwards.ModPowIsPower | tools/interop/verify_cose.py:55-61 | modular exponentiation by squaring is the power modulo p |
| Edwards.SumClears | tools/interop/verify_cose.py:55-76 | without any inverse: the denominator-cleared curve equation of the sum vanishes modulo p |
| Edwards.AddCommutes | tools/interop/verify_cose.py:55-61 | addition does not depend on the order of its operands, on or off the curve |
| Edwards.AddIdentity | tools/interop/verify_cose.py:55-66 | (0,1) is a two-sided identity up to reduction |
| Ed25519.NFoldDouble | tools/interop/verify_cose.py:64-71 | twice as many copies of a are as many copies of a + a, under the named group law |
| Ed25519.ScalarMult | tools/interop/verify_cose.py:64-71 | double-and-add is e-fold addition for every exponent e >= 0 under the named group law, and (0,1) below |
| Ed25519.ConstantsAreRight | tools/interop/verify_cose.py:30-52 | the literal field, curve, root and base constants satisfy their defining equations, and the base point is on the curve |
| Ed25519.DecodePoint | tools/interop/verify_cose.py:79-87 | a decoded point is on the curve, has the encoded y, and its x has the parity the sign bit asks for |
| PointDecoding.RootIsRoot | tools/interop/verify_cose.py:40-47 | the power and the correction by the root of -1 give a square root whenever there is one, in a field with p = 5 modulo 8 |
| PointDecoding.EdwardsIffSum | tools/interop/verify_cose.py:55-61 | over a prime, the same characterisation whenever neither denominator vanishes modulo p, doublings included |
| PointDecoding.InvertibleIff | tools/interop/verify_cose.py:55-61 | over a prime, the power the source takes for an inverse is one exactly for what does not vanish |
| Completeness.AdditionIsComplete | tools/interop/verify_cose.py:32-61 | over a prime with a root of -1, if d is not a square then no two curve points make a denominator vanish: `_edwards` never divides by zero on the curve |
| Completeness.Exceptional | tools/interop/verify_cose.py:55-61 | what a vanishing denominator would imply: for both roots i of -1, x1 y1 (i x2 + y2) vanishes |
| Completeness.NonSquareByPower | tools/interop/verify_cose.py:32-32 | Euler's criterion: d is not a square when its power (p-1)/2 is -1 |
| PointDecoding.DecodesIff | tools/interop/verify_cose.py:79-87 | decoding succeeds if and only if some point of the curve has the encoded y, where the denominator is invertible |
| PointDecoding.RfcIsAccepted | tools/interop/verify_cose.py:79-87 | whatever section 5.1.3 of RFC 8032 decodes is decoded to the same point |
| PointDecoding.AcceptedIsRfcIff | tools/interop/verify_cose.py:79-87 | a decoded point is the one section 5.1.3 gives if and only if y is below p and the root is not zero under a set sign bit, for every odd p |
| PointDecoding.LargeYAccepted | tools/interop/verify_cose.py:79-87 | for every odd p: a string of y = p + 1 without sign decodes to (0, p + 1), and the RFC decodes it to nothing |
| PointDecoding.SignedZeroAccepted | tools/interop/verify_cose.py:82-87 | for every odd p: a string of y = 1 with the sign bit decodes to the unreduced (p, 1), which the RFC does not allow |
| PointDecoding.EncodedYs | tools/interop/verify_cose.py:30-30 | a concrete 32-byte string of each kind for p = 2^255 - 19 |
| Ed25519.Verify | tools/interop/verify_cose.py:90-102 | decides the verification equation stated with repeated addition, S below the group order included, over the points `_decodepoint` makes, under the named group law |
| Signatures.SignedIff | tools/interop/verify_cose.py:90-102 | for a key and first half made from scalars a and r: the signature verifies if and only if its second half is r + h a modulo the order, h hashing first half, public key and message in this order |
| Signatures.NFoldModulo | tools/interop/verify_cose.py:64-71 | multiples of a point of the given order depend on the exponent modulo the order |
| Signatures.FromLittleSplit | tools/interop/verify_cose.py:79-80 | little-endian: bytes after the first n weigh 256 to the power n |
| WorkerShutdown.InvRun | tools/ecosystem_source_inventory.py:1937-1960 | every interleaving keeps: one holder in the admission section, every created process active, reaped or about to be registered by the holder, and no admission once the latch was followed by the lock |
| WorkerShutdown.NoProcessAfterSeal | tools/ecosystem_source_inventory.py:1859-1865 | once the latch is set and the lock was taken after it, no process is created in any continuation |
| WorkerShutdown.LeavesOnlyReaped | tools/ecosystem_source_inventory.py:2036-2042 | over any stretch of a run, a process that left the active set was killed and reaped |
| WorkerShutdown.SweepLeavesNothing | tools/ecosystem_source_inventory.py:1658-1679 | when a `close` or a handler has finished, every process ever created is reaped, and that stays so however the run goes on |
| WorkerShutdown.LatchSealsIff | tools/ecosystem_source_inventory.py:1942-1954 | with the latch set, no continuation creates a process if and only if no worker stands between its admission and its spawn |
| WorkerShutdown.SealedCreatesNothing | tools/ecosystem_source_inventory.py:1859-1865 | taking the lock after the latch establishes that condition |
| WorkerShutdown.LatchAloneDoesNotSeal | tools/ecosystem_source_inventory.py:1942-1954 | a run in which a worker admitted before the latch spawns after it |
| WorkerShutdown.CloseCanFinish | tools/ecosystem_source_inventory.py:1658-1679 | from every reachable state a `close` or handler can go on to its end, whoever holds the lock, and then every process is reaped |
| WorkerShutdown.WorkerCanEnd | tools/ecosystem_source_inventory.py:2004-2042 | and a worker with a process can go on to its end, its process reaped and discarded |
| WorkerShutdown.GhClient.TryAdmit | tools/ecosystem_source_inventory.py:1942-1944 | admits exactly when the latch is clear, as one step of the machine |
| WorkerShutdown.GhClient.SpawnAndRegister | tools/ecosystem_source_inventory.py:1945-1954 | spawning and registering are two steps of the machine and keep its invariant |
| WorkerShutdown.GhClient.ReleaseAfterSpawn | tools/ecosystem_source_inventory.py:1942-1966 | leaving the locked section is a step of the machine |
| WorkerShutdown.GhClient.KillAndReap | tools/ecosystem_source_inventory.py:2004-2035 | killing and reaping is the one step of the machine that leads from a running process to its discard |
| WorkerShutdown.GhClient.DiscardProcess | tools/ecosystem_source_inventory.py:2036-2042 | the discard under the lock is a step of the machine |
| WorkerShutdown.GhClient.RequestShutdown | tools/ecosystem_source_inventory.py:1658-1665 | setting the latch is a step of the machine |
| WorkerShutdown.GhClient.KillActiveProcesses | tools/ecosystem_source_inventory.py:1667-1679 | the sweep over the copied set reaps just the processes active at the copy, and afterwards every process ever created is reaped |
| Capture.TakePage | tools/ecosystem_source_inventory.py:2368-2423 | one page succeeds exactly when its size, its budget and all its rates are acceptable, and the first failing check names the error |
| Capture.ResolvePage | tools/ecosystem_source_inventory.py:2286-2335 | head requests are made just for the repositories with a default branch; rows and rates keep the listing order |
| Capture.CollectSnapshot | tools/ecosystem_source_inventory.py:2338-2443 | succeeds if and only if some number of pages makes a snapshot (all but the last full, every check holds, at most 1000 distinct rows), and then reports that snapshot's rows, requests and least quota |
| Capture.Counts | tools/ecosystem_source_inventory.py:2353-2424 | rows, GETs and commits of any run of acceptable pages: pages + commits <= GETs <= pages + rows |
| Capture.CollectTwice | tools/ecosystem_source_inventory.py:2471-2488 | succeeds exactly when both passes do and hold the same rows |
| Capture.CaptureAccount | tools/ecosystem_source_inventory.py:2459-2539 | succeeds if and only if both identity checks hold at their reserves, all four passes are snapshots at the operational reserve and the passes agree; the result is determined |
| CaptureMeaning.AgreeIff | tools/ecosystem_source_inventory.py:2487-2509 | when the passes agree: equal passes, every owner row public or private, and each public row occurs as often as public owner rows project to it |
| CaptureMeaning.VisibleCounts | tools/ecosystem_source_inventory.py:2491-2509 | selecting by visibility keeps each row that has it as often as it occurs, and no other |
| CaptureMeaning.IdentityOkIff | tools/ecosystem_source_inventory.py:2177-2195 | an identity check in numbers: agreement, one to three attempts each, and quota for the second request after the first |
| CaptureMeaning.BudgetOkIff | tools/ecosystem_source_inventory.py:2367-2385 | a page budget in numbers: at most 100 repositories and three GETs for each default branch and for a next page |
| CaptureMeaning.DistinctIff | tools/ecosystem_source_inventory.py:2427-2430 | no id and no name twice: as many ids, and as many names, as rows |
| CaptureMeaning.CommitsCount | tools/ecosystem_source_inventory.py:4030-4037 | the number of rows with a commit |
| CaptureMeaning.AttemptsAdd | tools/ecosystem_source_inventory.py:2420-2440 | the reported requests are the sum of the attempts |
| CaptureTheorems.SnapshotAccepted | tools/ecosystem_source_inventory.py:4011-4062 | every summary the loop can report passes the checker, whatever the server answered |
| CaptureTheorems.CommitsOfMultiset | tools/ecosystem_source_inventory.py:4030-4037 | the commit count used for both passes does not depend on the order of the rows |
| CaptureTheorems.CaptureIsAccepted | tools/ecosystem_source_inventory.py:3939-4062 | whatever `capture_account` returns passes the telemetry arithmetic, identity part included |
| CaptureTheorems.IdentityAcceptedIff | tools/ecosystem_source_inventory.py:3939-3998 | the four staged thresholds accept exactly the rates of an opening and a closing check that passed |
| CaptureTheorems.TelemetryAcceptedIff | tools/ecosystem_source_inventory.py:3939-4062 | an account put together from any answers is accepted exactly when both identity checks hold and each of the four summaries is acceptable for the rows kept of its scope |
| CaptureTheorems.AcceptedIffProducible | tools/ecosystem_source_inventory.py:4011-4062 | the summary arithmetic is exact: it accepts a summary and commit count if and only if some server makes the loop report them |
| CaptureTheorems.BudgetSuffices | tools/ecosystem_source_inventory.py:2378-2384 | after a page within its budget, no head request served in any order and no next-page request falls below the reserve, if a GET costs at most three |
| CaptureTheorems.ReserveNeverFailsLater | tools/ecosystem_source_inventory.py:2363-2423 | over a whole snapshot, only the first page's rate can fail the reserve |
| CaptureTheorems.ClosingCannotFail | tools/ecosystem_source_inventory.py:2177-2195 | after the last snapshot the closing identity check keeps its reserve |
| CaptureTheorems.PageLimitBoundsRows | tools/ecosystem_source_inventory.py:2355-2358 | success needs fewer than 100 rows per allowed page |
| CaptureTheorems.CapturableIff | tools/ecosystem_source_inventory.py:2353-2424 | how many repositories can be captured under a page limit, exactly |
| JsonScan.IdentityContextActive | tools/ecosystem_source_inventory.py:5702-5719 | the automaton answers whether some anchor is followed by transparent components only |
| JsonScan.NodeBudget.ScanStack | tools/ecosystem_source_inventory.py:5767-5798 | true only for a match, false exactly when there is none and the budget covers the nodes; the paths of the visited nodes are pairwise different, one per unit of budget, and all paths of the document when nothing is found; no failure with a budget of the node count |
| JsonScan.PathsAreSingle | tools/ecosystem_source_inventory.py:5780-5797 | in a document whose dictionaries hold no key twice, a path names one node, list positions being decimal text |
| JsonScan.PushItems | tools/ecosystem_source_inventory.py:5780-5785 | pushing a list adds just its items, each with its index on the path |
| JsonScan.PushEntries | tools/ecosystem_source_inventory.py:5788-5797 | a dictionary either matches or adds just its values, each with its key on the path |
| JsonScan.ScanPublic | tools/ecosystem_source_inventory.py:5851-5914 | the recursive scan fails exactly when the explicit-stack scan would find a match or some string holds an identifier |
| IdentityMatch.EntryIdentifies | tools/ecosystem_source_inventory.py:5722-5764 | the sequence of tests decides the declarative predicate: which keys in which contexts make a value identifying |
| IdentityMatch.FourKindsOfKey | tools/ecosystem_source_inventory.py:5722-5764 | an entry is reported exactly when it would be for branches, for repositories, for objects or for ids alone |
| IdentityMatch.BranchKeyIff | tools/ecosystem_source_inventory.py:5737-5741 | the keys and contexts in which a reading is compared with the private branches |
| IdentityMatch.RepositoryKeyIff | tools/ecosystem_source_inventory.py:5742-5746 | the same for repository names |
| IdentityMatch.OidKeyIff | tools/ecosystem_source_inventory.py:5747-5748 | the same for object ids, which need no context |
| IdentityMatch.IdKeyIff | tools/ecosystem_source_inventory.py:5749-5764 | the same for repository ids, as numbers or as digits |
| IdentityMatch.NumberReads | tools/ecosystem_source_inventory.py:5722-5764 | digits are read in base ten, leading zeros included |
| IdentityMatch.DigitsIff | tools/ecosystem_source_inventory.py:5749-5753 | a text is all digits exactly when it is some number's own text behind zeros |
| IdentityMatch.IndexIsTransparent | tools/ecosystem_source_inventory.py:5702-5719 | an index anywhere in the path leaves the automaton's answer as it was |
| IdentityMatch.PositionsIgnored | tools/ecosystem_source_inventory.py:5722-5798 | no value is judged differently for a list position on its path |
| IdentityMatch.ListIsItsItems | tools/ecosystem_source_inventory.py:5780-5785 | a list is reported exactly when one of its items would be in the list's own place |
| StructuralContains.ReflexiveIffNaNFree | tools/ecosystem_source_inventory.py:5003-5027 | a value contains itself if and only if it holds no NaN |
| StructuralContains.Transitive | tools/ecosystem_source_inventory.py:5003-5027 | containment is transitive through dictionary subsets and list windows |
| StructuralContains.ScalarContained | tools/ecosystem_source_inventory.py:5027-5027 | an expected scalar is contained in itself alone, and NaN in nothing |
| StructuralContains.ListContained | tools/ecosystem_source_inventory.py:5014-5026 | an expected list is contained exactly where a stretch of the candidate contains it item by item |
| StructuralContains.DictContained | tools/ecosystem_source_inventory.py:5009-5013 | an expected dictionary exactly where each of its keys is present with a value that contains its value |
| StructuralContains.MutualIff | tools/ecosystem_source_inventory.py:5003-5027 | two values contain each other if and only if they hold no NaN and are equal but for the order of keys |
| StructuralContains.CheckIsContains | tools/ecosystem_source_inventory.py:5003-5027 | the budgeted run answers the unbudgeted relation when the budget covers its exact cost and fails otherwise |
| StructuralContains.Budget.ContainsWithin | tools/ecosystem_source_inventory.py:5003-5027 | the mutating counter: an answer exactly when the budget covers the cost, and then the right one |
| BatchFraming.ReadFrame | tools/ecosystem_source_inventory.py:4583-4602 | one turn succeeds exactly when a whole frame of the announced size stands at the offset, and moves past it |
| BatchFraming.ParseBatch | tools/ecosystem_source_inventory.py:4562-4606 | accepts a stream if and only if it is the framing of some payloads with the announced sizes, nothing left over, and returns those |
| BatchFraming.FramesUnique | tools/ecosystem_source_inventory.py:4580-4606 | a stream frames at most one list of payloads, whatever newlines or header-like text they hold |
| BatchFraming.BatchRoundTrip | tools/ecosystem_source_inventory.py:4562-4606 | for distinct object ids every payload comes back under its own id |
| BatchFraming.FrameLayout | tools/ecosystem_source_inventory.py:4583-4602 | a frame in bytes: id, " blob ", canonical digits of the payload's length, newline, payload, newline |
| BatchFraming.SplitLinesCases | tools/ecosystem_source_inventory.py:4540-4545 | how the listing is cut into lines, for each line terminator |
| BatchFraming.SizeTextIffCanonical | tools/ecosystem_source_inventory.py:4550-4554 | the size pattern matches exactly the canonical decimals |
| BatchFraming.ParseSizes | tools/ecosystem_source_inventory.py:4541-4559 | accepts exactly the listings of these objects with canonical sizes within the bound; the last size of an id wins |
| BatchFraming.ListsIff | tools/ecosystem_source_inventory.py:4541-4559 | what a listing is, line by line and in bytes, with the bound of 16 MiB |
| BatchFraming.ListingAccepted | tools/ecosystem_source_inventory.py:4532-4559 | git's own listing is accepted with the sizes it was printed from |
| KeyExpr.JoinExact | tools/secure_zenoh.py:333-348 | joined key segments are an exact key expression |
| KeyExpr.JoinInjective | tools/secure_zenoh.py:219-239 | equal keys have equal segments |
| KeyExpr.CommandInKey | tools/secure_zenoh.py:770-774 | the substring test for `/command` asks whether a later segment starts with `command` |
| AclMeaning.ExactIffJoined | tools/secure_zenoh.py:333-348 | a key is exact if and only if it joins non-empty segments by single slashes |
| AclMeaning.KeyCharIff | tools/secure_zenoh.py:333-348 | the characters of exact keys by code |
| AclMeaning.SafeCharIff | tools/secure_zenoh.py:195-203 | the characters of realms and session ids, listed |
| Acl.RouterConfig | tools/secure_zenoh.py:355-420 | the nested appending loops build the rules, policies and subjects that the theorems below speak of |
| AclTheorems.RoutesDistinct | tools/secure_zenoh.py:219-239 | for every safe realm and session id the seventeen routes are distinct |
| AclTheorems.RouteExact | tools/secure_zenoh.py:219-239 | and each is an exact key expression |
| AclTheorems.RuleIdInjective | tools/secure_zenoh.py:381-401 | rule ids never collide, whatever dashes the principal ids contain |
| AclTheorems.CompilationPreservesGrants | tools/secure_zenoh.py:355-420 | for every matrix, what the rendered rules grant is the matrix's grants and the reviewed queryable declarations, nothing else |
| AclMeaning.RouteGrantedIff | tools/secure_zenoh.py:141-158 | for every valid profile, principal and route: which message passes in which direction, permission by permission |
| AclMeaning.QueryableGrantedIff | tools/secure_zenoh.py:388-405 | on the wildcard key only queryable declarations pass, out to those that query and in from those that serve |
| AclMeaning.NothingElseGranted | tools/secure_zenoh.py:355-420 | every grant names a principal and either a route or the wildcard key |
| AclMeaning.RouteTexts | tools/secure_zenoh.py:219-239 | the seventeen routes as text |
| AclMeaning.RuleNames | tools/secure_zenoh.py:372-405 | the rule ids of a principal as text, exactly those for which it has routes |
| AclTheorems.RenderedAcceptedIff | tools/secure_zenoh.py:607-774 | of a rendered configuration the verifier can object only to who may use the command route |
| AclVerifier.ReadSubjects | tools/secure_zenoh.py:659-680 | subjects are read exactly when each binds one name and ids and names are unique |
| AclVerifier.SameBindings | tools/secure_zenoh.py:674-680 | the bindings agree exactly when every subject is a principal with its name and none is missing |
| AclVerifier.ReadRules | tools/secure_zenoh.py:682-713 | rules are read exactly when ids are unique and each is an exact one-way allow rule or the reviewed declaration |
| AclVerifier.AddPolicy | tools/secure_zenoh.py:717-738 | adds exactly the grants of one policy, or fails on a dangling reference |
| AclVerifier.ReadGrants | tools/secure_zenoh.py:715-738 | the accumulated set is exactly what the policies grant |
| AclVerifier.VerifyRouter | tools/secure_zenoh.py:607-774 | accepts a configuration if and only if it is well formed, grants exactly the matrix, and leaves the command route to Gate and its receivers |
| AclMeaning.AcceptedCommands | tools/secure_zenoh.py:757-774 | in whatever configuration is accepted, Gate alone may put the command route, the observer and the robot alone receive it, and no other key mentions a command |
| AclMeaning.RuleOkIff | tools/secure_zenoh.py:682-713 | what a well-formed rule is, with literal texts |
| AclMeaning.ValidProfileIff | tools/secure_zenoh.py:195-256 | what a valid profile is, with literal bounds |
| HaldirAcl.RouteMentionsCommand | tools/secure_zenoh.py:219-239 | a route mentions `/command` exactly when it is the command route or carries a session id that starts with `command` |
| HaldirAcl.AcceptsRenderedIff | tools/secure_zenoh.py:757-774 | for every matrix, the exact condition under which the verifier accepts the renderer |
| HaldirAcl.AuditedAcceptedIff | tools/secure_zenoh.py:59-140 | with the audited matrix: accepted if and only if the session id does not start with `command` |
| HaldirAcl.CommandSessionRejected | tools/secure_zenoh.py:770-774 | `command-1`: for every valid profile with this session id the renderer's own output is rejected |
| HaldirAcl.CommandSessionExists | tools/secure_zenoh.py:59-140 | a concrete valid profile with the audited matrix and that session id |
| HaldirAcl.OnlyGateCommands | tools/secure_zenoh.py:757-764 | the rendered rules let Gate and nobody else PUT the command route, whatever the session id |
| HaldirAcl.RouteUsers | tools/secure_zenoh.py:59-140 | the audited matrix route by route: every route of the session has exactly one writer and just the listed readers, and the RPC routes are queried by the robot and served by the lifecycle alone |
| Publication.AlwaysConsistent | tools/run_formal.py:460-511 | over any runs contending for the lock, with a crash after any step, an existing record names an existing log with its size and digest |
| Publication.ConsistentMeans | tools/run_formal.py:1627-1633 | no record, or one that states the length and digest of the log it names |
| Publication.EffectsTouchOneName | tools/run_formal.py:1276-1360 | each of the three changes touches one published name and leaves the others |
| Publication.OnlyHolderPublishes | tools/run_formal.py:460-511 | only the lock holder changes the published names |
| Publication.ReplaceUnderRecord | tools/run_formal.py:1510-1513 | replacing a log under a standing record is safe exactly when the record names another log or the new log fits it |
| Publication.PrefixStates | tools/run_formal.py:1494-1613 | the store after each prefix of invalidate, replace, publish, and that each is consistent |
| Publication.RunIsSteps | tools/run_formal.py:1494-1613 | a run that made any number of its changes and ended is a run of the step machine that AlwaysConsistent speaks of |
| Publication.FormalRoot.InvalidateRuntimeRecord | tools/run_formal.py:1345-1360 | success is never reported over a standing record; a failure leaves the old record or none, and none when only the directory sync failed |
| Publication.FormalRoot.PublishTempLog | tools/run_formal.py:1276-1299 | the log is replaced as a whole or not at all, success means it was, and the temporary survives only when it could be neither renamed nor removed |
| Publication.FormalRoot.HashPublishedLog | tools/run_formal.py:1627-1633 | for a log within the cap, the one size and digest with which a record of it would be consistent |
| Publication.FormalRoot.AtomicJson | tools/run_formal.py:1302-1342 | whether writing, renaming or syncing fails, the record is the old one or the whole new one, and the new one on success |
| Publication.FormalRoot.RunTlc | tools/run_formal.py:1494-1613 | with any operation failing and a crash after any change, a run has made a prefix of its three changes as a run of the step machine does; success means all three, and without faults it succeeds; no removable temporary is left |
| PosixPath.NormalizedIffClean | tools/pinned_cargo_deny.py:1009-1032 | a name passes if and only if it is a lone dot or the join of components that are not empty, dot, dot-dot or with NUL or backslash |
| PosixPath.PartsOfJoin | tools/pinned_cargo_deny.py:1023-1031 | the parts of joined clean components are those components |
| AdvisoryTree.Destination.ExtractMember | tools/pinned_cargo_deny.py:1298-1392 | one turn succeeds exactly on an acceptable member and adds its entry; otherwise the tree is unchanged. Neither mkdir nor O_EXCL can meet an existing entry |
| AdvisoryTree.Destination.Extract | tools/pinned_cargo_deny.py:1283-1411 | succeeds if and only if the archive is admissible, then holds the archive's tree; however it ends, the tree is that of a prefix, contained and parent-closed |
| AdvisoryTree.TrailerIsZero | tools/pinned_cargo_deny.py:1407-1411 | at least two blocks after the last member and every byte zero |
| AdvisoryTree.TreeHoldsMembers | tools/pinned_cargo_deny.py:1298-1392 | each admitted member sits at its target with its content and no later member displaced it; nothing else exists |
| AdvisoryTree.TreeIsSafe | tools/pinned_cargo_deny.py:1313-1347 | no entry outside the destination or under `.git` in any spelling, and every entry lies in a directory |
| AdvisoryTree.MemberOkIff | tools/pinned_cargo_deny.py:1290-1392 | what it takes to be admitted as the n-th member, in full and in numbers |
| AdvisoryTree.NameIsRootAndTarget | tools/pinned_cargo_deny.py:1313-1339 | a member's name is the root and its target joined; its parent's name is that without the last component |
| AdvisoryTree.EndIsNextBoundary | tools/pinned_cargo_deny.py:1388-1392 | the expected end is the first 512-byte boundary at or after the last member's data |
| AdvisoryTree.PinMeans | tools/pinned_cargo_deny.py:1396-1411 | the pinned counts as numbers of members of each kind, and the trailer as at least 1024 zero bytes |
| AdvisoryTree.BytesAdd | tools/pinned_cargo_deny.py:1370-1374 | the worktree size is the sum over the members that are not directories |
| AdvisoryTree.ParentLookup | tools/pinned_cargo_deny.py:1334-1352 | seeing the parent's name and finding a directory on disk together mean that an earlier member is that directory |
| AdvisoryTree.ExtractedExactly | tools/pinned_cargo_deny.py:1398-1405 | the tree's entries are the members' targets, as many as the pin counts |
| PollTrace.AcceptedIffShaped | tools/verify-live-gate-dev-smoke.py:853-1053 | the index arithmetic accepts a log if and only if it runs the automaton (failed poll, running check)*, success, logs of the Gate, export, stop to its end and touches the container in no other way |
| PollTrace.OnlyReviewedIff | tools/verify-live-gate-dev-smoke.py:925-1053 | every command with the container or a path in it among its arguments starts it by its only `--name` or is one of seven commands, written out |
| PollTrace.StoppedIffMilestones | tools/verify-live-gate-dev-smoke.py:885-923 | the automaton ends with these milestones exactly on the words where each position is as they say |
| PollTrace.FailuresArePaired | tools/verify-live-gate-dev-smoke.py:904-918 | failed polls moved on by one are the running checks, as lists |
| SmokeCampaign.CommandRunner.Execute | tools/live_secure_zenoh.py:101-142 | a command is logged however it ends and moves the automaton one step |
| SmokeCampaign.CommandRunner.WaitForExitMarker | tools/live_gate_dev_smoke.py:451-496 | a status is returned if and only if, for some n, the first n polls fail in time with passing running checks and the next one is answered; it is that answer, and just these commands were issued |
| SmokeCampaign.CommandRunner.CaptureAndStop | tools/live_gate_dev_smoke.py:942-968 | succeeds exactly when the status is zero and every later command works as it must, with its log determined |
| SmokeCampaign.CommandRunner.Lifecycle | tools/live_gate_dev_smoke.py:942-968 | wait, capture, export, stop succeed if and only if they complete after some number of failed polls; the log is then determined, and its state accepting exactly when the Gate's logs were captured |
| SmokeCampaign.CommandRunner.Campaign | tools/live_gate_dev_smoke.py:834-858 | a campaign gets through if and only if its commands do, for any number of failed polls; its log is the recorded commands, accepted exactly when the Gate's log capture succeeded |
| SmokeCampaign.CompletedLogAcceptedIff | tools/verify-live-gate-dev-smoke.py:853-1053 | the log of a completed life cycle is accepted if and only if the Gate's logs were captured |
| SmokeCampaign.LifeWrittenOut | tools/live_gate_dev_smoke.py:451-496 | the commands of a life cycle with one failed poll, written out |
| SmokeCampaign.ObligingCompletes | tools/live_gate_dev_smoke.py:451-496 | for every number of failed polls and every exit code of the log capture there is a campaign that gets through |
| SmokeCampaign.PlainLogAccepted | tools/live_gate_dev_smoke.py:451-496 | for every number of failed polls some run completes after just that many, with an accepted log |
| SmokeCampaign.UncapturedLogRejected | tools/live_gate_dev_smoke.py:942-947 | and some Gate run completes with a failed log capture, whose log is rejected |
| SmokeCampaign.HousekeepingIsNeutral | tools/verify-live-gate-dev-smoke.py:925-948 | starting, inspecting and removing the container never disturb the life cycle |
| SmokeCampaign.UntouchedIsNeutral | tools/verify-live-gate-dev-smoke.py:931-937 | nor does any command that names neither the container nor a path in it |
| BoundedCapture.WriteAll | tools/run_formal.py:669-675 | over the writes made: the whole payload goes out in order exactly when each made progress; otherwise the last one, and only it, did not, and the prefix put out is known |
| BoundedCapture.CaptureBounded | tools/run_formal.py:985-1021 | over the turns made: each but the last goes on and the last ends the loop as reported; it times out exactly when that turn is past the deadline; otherwise the capture is the first min(limit, total) bytes for every chunking, and the limit is reported exactly when there were more |
| BoundedCapture.TailOfTail | tools/live_secure_zenoh.py:211-213 | trimming after each chunk keeps what trimming once would |
| BoundedCapture.TimedOutIff | tools/live_secure_zenoh.py:180-197 | the wait is given up exactly when some turn that waited with a deadline found it passed or no open stream readable |
| BoundedCapture.CaptureStreams | tools/live_secure_zenoh.py:180-214 | stdout is the first min(limit, total) bytes, the flag is set exactly when there were more, the tail is the last min(4000, total) bytes, also after the kill; the loop ends at the first turn with both streams closed, without the clock's help |
| BoundedCapture.RunBytes | tools/live_secure_zenoh.py:144-265 | each outcome has its exact condition: a timeout exactly when a turn made stayed silent, else the limit exactly when stdout is longer, else the exit code; a returned stdout is all of it |

## Left out

- Python's recursion limit and memory: `cbor_decode` and the recursive scans are modelled without them.
- Real processes, pipes, sockets, Docker, Git, TLS, `gh` and descriptors: steps, replies and chunks are parameters.
- SHA-256, SHA-512, gzip and `tarfile` internals: hashes are functions, tar members are records.
- Primality of P, non-squareness of D and associativity of the Edwards law: named hypotheses in the statements; completeness follows from the first two (`Completeness.AdditionIsComplete`), associativity is not derived.
- Ed25519.Verify: says nothing about verification where the group law fails, because then repeated addition and double-and-add need not agree.
- WorkerShutdown.SweepLeavesNothing: assumes that kill-and-reap succeeds; `close` swallows its failures. A signal handler is a thread of its own that does not run inside its own thread's masked admission section, and the re-entry of the reentrant lock in the `finally` block is one atomic step.
- Publication.AlwaysConsistent: process crashes only; the order in which unsynced directory operations survive a power loss is not modelled. Every run resolves its log below one directory and takes one lock.
- Publication.FormalRoot.RunTlc: the content checks between hashing and the record (markers, unchanged inputs) decide what the record says and are not modelled; an error they raise is the crash parameter. Temporaries of the record itself are not tracked.
- Capture.CollectSnapshot: repositories are normalised metadata; the checks of `normalize_repository_metadata`, the reference and object checks of a head answer, reset timestamps and the digest are not modelled. Rows keep the listing order, and two sorted lists are compared as multisets.
- Capture.CaptureAccount: the four failures of an identity check share one error; logins are a flag that they agree.
- CaptureTheorems.CaptureIsAccepted: the arithmetic only; digests, timestamps, schema constants and the command log of the telemetry document are comparisons of constants.
- Capture.ResolvePage: the workers' interleaving does not change the answer and is modelled where it matters, as the arbitrary order in BudgetSuffices.
- JsonScan.NodeBudget.ScanStack: keys are strings, as decoded JSON has them; the text scans with library patterns, embedded JSON and escape decoding are the parameters `text` and `readings`.
- IdentityMatch.EntryIdentifies: case folding, whitespace and `isdecimal` are parameters; of non-decimal key shapes only strings occur.
- StructuralContains.Transitive: Python compares a float and an int by type first, so numbers of different type never contain each other; the sign of a float zero is not modelled.
- BatchFraming.ParseBatch: for an empty list of objects the source returns before it reads anything; the model asks for the empty stream.
- AclVerifier.VerifyRouter: the access-control part; transport, listener and TLS settings and the type checks of the JSON shapes are fixed comparisons. The ids of policies carry no grants and are checked for uniqueness only.
- Acl.RouterConfig: the order of the principals is a parameter; the fixed transport part of the configuration is left out.
- AdvisoryTree.Destination.Extract: file systems that fold case, and failures of the disk itself, are not modelled; a failed extraction is removed by its caller.
- PollTrace.AcceptedIffShaped: one definition stands for the two near-identical checkers, which differ in paths and in the Gate's log milestone; error messages are not distinguished.
- SmokeCampaign.CommandRunner.Lifecycle: validation of what was exported is one flag.
- SmokeCampaign.CommandRunner.Campaign: commands of other phases are arbitrary neutral ones and run unchecked, so that only a timeout ends those phases.
- BoundedCapture.CaptureBounded: the wait for the group leader after the stream has ended and the signals are not modelled.
- Unpaired surrogates: text is modelled as characters or as UTF-8 bytes; a tar name that has no UTF-8 form is a record without a length.
- `doctor.py`, `verify-pins.py`, `verify-claims.py`, `check_agent_index.py`, `verify-generated.py`, `verify-evidence.py`, schema constants, attestation text, ledgers and SVG output: easier copies of loops covered here, or one comparison each.
- `HaldirAuthority.tla` and the Rust Gate are not part of this model.
