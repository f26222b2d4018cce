# AXIOM: verified models of the gateway, the protocols and the wire formats

Dafny models of the parts of AXIOM that decide who may do what, and proofs of
what those parts promise. `dafny verify dfyconfig.toml` checks the project.

- **Approval flow** (`Approval`, `ApprovalRuns`): a Tier 2 intent is proposed, a
  human decides, an approved intent is executed. The lock is released while the
  human decides, so the run model interleaves any number of calls, a clock and a
  step that overwrites stored parameters.
- **Policy** (`MacScan`, `Ipv4Scan`, `Screening`, `Policy`, `PolicyRuns`,
  `RateRuns`, `KillSwitchRuns`): the scanners that look for protected devices in
  parameters, the registration of capabilities, and the gate every call passes,
  as five atomic sections per call.
- **Audit log** (`Hex`, `Audit`, `AuditRuns`, `AuditedRuns`): the hash chain, its
  writers, its verifier, redaction, and what an entry says of an intent. The run
  model opens and closes any number of handles on one file and lets appends fail.
- **Text** (`Base58`, `Did`, `Sanitize`): radix conversion in place, DID URLs
  (section 3.2 of W3C DID Core 1.0), and the cleaning of untrusted strings
  (control sequences as in section 5.4 of ECMA-48).
- **Frames** (`Frame`, `Codec`, `Encoder`, `Decoder`, `Layouts`): the bit-packed wire
  format, the bytes a signature covers, and what stands where in them.
- **Trust negotiation** (`Negotiation`, `NegotiationRuns`, `NonceRuns`,
  `AckRuns`, `SessionRuns`, `ExchangeRuns`, `ReplayRuns`), **revocation**
  (`Revocation`, `RevocationRuns`),
  **RAW sessions** (`RawSession`, `RawSessionRuns`, `RawKeyRuns`, `RawPairRuns`,
  `RawManager`) and
  **external audit** (`ExternalAudit`, `ExternalAuditRuns`, `ExternalTamperRuns`,
  `ExternalReceiptRuns`): the protocols, one node at a time and over every run.

Classes stand for the objects the code updates in place. Each method is proved
against functions on values; the run models fold the same functions over
sequences of steps, and the theorems about runs are about those folds.

## Assumptions and conventions

- Hashes, signature verification, lower-casing and value formatting are function
  parameters of which nothing is assumed. Where a law would need collision
  resistance, the proof exhibits the collision. Trust negotiation assumes, as
  conditions on a network step, that a signature verifying under an honest key
  was made by that node, if it is on a transcript of this protocol, and that nonces
  are not drawn twice.
- Clock readings, random identifiers and nonces, channel answers and capability
  outcomes are arguments. A locked section reads the clock once.
- A node's identifier is its public key.
- Packed fields occupy disjoint bits, so a bitwise or of shifted fields is
  written as a sum.
- 64-bit sums in `ChallengeValid` and in the heartbeat window wrap, as in a
  release build; the count of missed heartbeats keeps 32 bits. Other counters are
  unbounded.
- Text is a sequence of characters. MAC and IPv4 text is ASCII, so scanning
  characters reports what scanning UTF-8 bytes reports.

Where the code and its comments disagree the model follows the code:

- `FlowError` is documented to come with a matching status on the record
  (axiom-gateway/src/approval.rs:724-728). That holds inside both locked sections
  (`ClaimIsRecorded`, `FinishIsRecorded`); between them it holds if and only if the
  channel answers, and for that intent (`AnswerIsRecordedIff`). Otherwise the record
  stays in progress for ever (`ChannelFailureIsFinal`).
- `ProtectedMatch.matched_value` is documented as the exact substring found
  (axiom-gateway/src/policy.rs:576-583); for a MAC it is the normalised form. That
  occurs in the parameter's text if and only if the text, as it was written, spells the
  MAC with colons and no upper-case digit (`ReportedAsWrittenIff`): not with hyphens and
  capitals (`ReportedTextNeedNotOccur`), nor with a space in it (`SpacedMacIsNotShown`).
- The MAC scan finds every MAC of a text if and only if no two overlap in it
  (`AllReportedIff`); otherwise a protected MAC can pass screening
  (`OverlappedMacPasses`). The IPv4 scan likewise reports whole tokens only
  (`IpsExact`, `TrailingDotIsMissed`).
- The audit log's file verifies after any run if and only if every line is whole,
  written after a newline, and by a handle that knew the end of the file
  (`RunVerifiesIff`). One writer at a time suffices (`OneWriterVerifies`); two open
  handles (`TwoWritersBreak`), a failed sync (`FailedSyncBreaks`) or a line that lacks
  its newline, although the log opens on it (`MissingNewlineBreaks`), do not.
- `signature_data` ignores the encoder's error, so an oversized frame is signed as
  zeros (`OversizedSignatureCoversOnlyLength`).
- The 32-bit count of missed heartbeats can wrap (`WrappedTimeoutIsMissed`,
  `WrapRevives`); `TimeoutAgreesIff` and `TerminationAbsorbsIff` say exactly when that
  matters.
- Terminating one RAW session of a peer, or sweeping it away as overdue, hides any
  other session of that peer from lookups (`HeldSessionHidden`, `SweepHidesIff`), also
  one just established (`SweepHidesRenewed`).
- The collector does not compute an entry's hash again, so it stores an altered entry
  (`AlteredIsStored`); what it stores is the writer's log if and only if the entries
  state their own hashes (`ReplicaMatchesIff`).
- A writer checks a receipt under the key the receipt names, so any key can clear an
  entry (`ForeignReceiptClears`); receipted entries are stored if receipts name the
  collector (`ReceiptedIsStoredIfNamed`).
- A negotiated session is filed under the sender that the frame names, which nothing
  compares with the key that was verified, by a Hello or by an Ack
  (`FiledUnderSender`, `OtherKeyHappens`); where they agree in every Hello and Ack, all
  sessions are held under their keys (`BoundIfSendersAreKeys`).
- An Ack is documented as bound to its session (axiom-crypto/src/negotiate.rs:17-22,
  340-342). In contexts that the node opened itself each ack serves one session
  (`InjectiveAgreement`); in one opened by an incoming Hello an old ack serves again
  (`ReplayHappens`).
- A sender of RAW heartbeats does not rotate its own key, so it refuses every
  acknowledgement after a rotation (`AckAcceptedIff`).
- A freeze does not stop a call that has already read the flag
  (`FrozenIsReadOnce`).

## Model

| member | source | states |
|---|---|---|
| Approval.Tier2ApprovalFlow.ProposeWithExpiry | axiom-gateway/src/approval.rs:883-906 | a proposal that screening rejects leaves the records as they were and returns the reason; any other is registered as pending with the hash of its parameters |
| Approval.Tier2ApprovalFlow.Claim | axiom-gateway/src/approval.rs:929-976 | the first locked section: what the call goes on with, and the whole new record map, for every status, expiry and hash case |
| Approval.ConsultsIff | axiom-gateway/src/approval.rs:331-341 | the channel is consulted if and only if the intent is pending, unexpired and of the captured hash, and is shown identifier, proposer, capability, parameters, announced effects and hash of that intent and the time that is left |
| Approval.ClaimExact | axiom-gateway/src/approval.rs:929-976 | the first section changes at most the status, and only of a pending intent: to expired, drifted or in progress |
| Approval.Tier2ApprovalFlow.Finish | axiom-gateway/src/approval.rs:983-1015 | the second locked section: result and new record map for a denial, an expiry, a hash mismatch and a run, the run on the parameters stored then |
| Approval.FinishExact | axiom-gateway/src/approval.rs:988-1014 | the second section records the decision and with it, in this order, a denial, an expiry, a drift, or the run and whether it succeeded |
| Approval.Tier2ApprovalFlow.DecideAndExecute | axiom-gateway/src/approval.rs:929-1015 | a whole call with nothing in between: the composition of the two sections around the channel, including both channel failures |
| Approval.Tier2ApprovalFlow.Tamper | axiom-gateway/src/approval.rs:1033-1044 | overwrites stored parameters and nothing else, reporting whether the intent is known |
| Approval.TamperExact | axiom-gateway/src/approval.rs:1033-1044 | overwriting leaves identity, captured hash and times of the intent, and every other record, as they were |
| ApprovalRuns.KeptByRun | axiom-gateway/src/approval.rs:929-1015 | every interleaving keeps the invariant tying records, calls in progress and histories together |
| ApprovalRuns.SingleOwner | axiom-gateway/src/approval.rs:957-976 | in every interleaving at most one call is between claim and finish on an intent, and the intent is then in progress |
| ApprovalRuns.AtMostOnce | axiom-gateway/src/approval.rs:929-1015 | in every interleaving the channel is consulted at most once per intent and the capability run at most once |
| ApprovalRuns.RunOnlyAsApproved | axiom-gateway/src/approval.rs:957-1014 | whenever the capability runs, the same call was told that this intent is approved, the intent is unexpired, and what was proposed, shown and run all have the captured hash, even if parameters are overwritten in between |
| ApprovalRuns.SettledForever | axiom-gateway/src/approval.rs:679-711 | a terminal status, and an intent whose claiming call is gone, never change again: no later consultation, run, decision or status |
| ApprovalRuns.ChannelFailureIsFinal | axiom-gateway/src/approval.rs:983-986 | after a channel error or a decision for another intent, the intent stays in progress for ever and is never run |
| ApprovalRuns.AnswerIsRecordedIff | axiom-gateway/src/approval.rs:977-1015 | for a call waiting on the channel in any run, and whatever happens between its answer and its finish: its intent ends with a terminal status if and only if the channel answers, and answers for that intent |
| ApprovalRuns.ApprovalHappens | axiom-gateway/src/approval.rs:883-1015 | from the start, every proposal that passes screening and does not expire at once can be asked about, approved and run on its own parameters |
| Approval.ClaimIsRecorded | axiom-gateway/src/approval.rs:929-976 | every result of the first section is the status the record then has; every error but the unknown intent leaves its documented status |
| Approval.FinishIsRecorded | axiom-gateway/src/approval.rs:987-1015 | every result of the second section is the terminal status the record then has; an error leaves its documented status |
| ApprovalRuns.RejectedIsNeverRegistered | axiom-gateway/src/approval.rs:890-898 | a rejected proposal changes nothing, and no intent of any run was proposed with what screening rejects |
| ApprovalRuns.ConsultedAsProposed | axiom-gateway/src/approval.rs:331-976 | in every run, overwriting included, the channel is shown the proposer, capability, announced effects and hash of the proposal, and exactly the time left when the call claimed the intent, which had not expired |
| ApprovalRuns.ConsultedHasPassed | axiom-gateway/src/approval.rs:890-976 | in every run what the channel is shown has the hash of parameters that passed screening, and is those parameters unless parameters were overwritten |
| ApprovalRuns.ConsultedNamesNothingProtected | axiom-gateway/src/policy.rs:1318-1350 | so without overwriting no approver is ever shown a parameter that names a protected device |
| ApprovalRuns.ProtectedMacNeverConsulted | axiom-gateway/src/policy.rs:1318-1350 | in particular none is shown a protected MAC, in either separator, any case and with whitespace anywhere in it, unless an earlier MAC-shaped window overlaps it |
| AuditedRuns.EntryTellsWhetherRan | axiom-gateway/src/audit.rs:730-783 | for every intent of every run: no line before a terminal status; the line then written says allowed and carries an outcome exactly when the capability ran, and the outcome it returned; it names proposer, capability, identifier, parameters, reason and duration of that history |
| MacScan.ParseMacWindow | axiom-gateway/src/policy.rs:716-733 | the octet loop accepts exactly six hexadecimal octets joined by one separator, and yields their values |
| MacScan.ScanMacCandidates | axiom-gateway/src/policy.rs:692-710 | the scan loop reports the values at exactly the greedy hit positions |
| MacScan.HitsDisjoint | axiom-gateway/src/policy.rs:692-710 | reported windows are MAC-shaped and never overlap |
| MacScan.HitsCover | axiom-gateway/src/policy.rs:692-710 | every MAC-shaped window starts inside a reported one |
| MacScan.HitsExact | axiom-gateway/src/policy.rs:701-706 | a window is reported if and only if it is MAC-shaped and no reported window starts in the sixteen places before it |
| MacScan.AllReportedIff | axiom-gateway/src/policy.rs:692-710 | the scan reports every MAC-shaped window of a text if and only if no two of them overlap in it |
| MacScan.IsolatedIsReported | axiom-gateway/src/policy.rs:692-710 | a MAC-shaped window that no earlier one overlaps is reported, whatever the rest of the text |
| MacScan.OverlapIsMissed | axiom-gateway/src/policy.rs:701-706 | of seven octets in a row, which hold two MAC-shaped windows, only the first is reported |
| MacScan.FirstSeparatorFound | axiom-gateway/src/policy.rs:692-710 | a MAC-shaped window with no separator before it is always reported |
| MacScan.ScanIncludingWhitespaceObfuscated | axiom-gateway/src/policy.rs:820-827 | the two passes report the hits of the text and, if whitespace was removed, of the stripped text |
| MacScan.SpelledMacFound | axiom-gateway/src/policy.rs:820-827 | a MAC with whitespace anywhere in it is found if no separator comes before it |
| MacScan.FoundIsSpelled | axiom-gateway/src/policy.rs:820-827 | conversely everything found is spelled out in the text or in the stripped text |
| MacScan.FormatParses | axiom-gateway/src/policy.rs:629-631 | the printed form of a MAC parses back to it |
| MacScan.MacShapeIff | axiom-gateway/src/policy.rs:716-733 | a MAC is six pairs of hexadecimal digits in either case, joined by colons or joined by hyphens |
| MacScan.WhitespaceIs | axiom-gateway/src/policy.rs:820-827 | the characters removed are the 25 that Unicode calls white space |
| Ipv4Scan.ScanIpv4Candidates | axiom-gateway/src/policy.rs:753-775 | the nested scan loops report the IPv4-shaped tokens in order |
| Ipv4Scan.TokensExact | axiom-gateway/src/policy.rs:758-772 | the scan looks at exactly the maximal runs of digits and dots, from their first digit |
| Ipv4Scan.IpsExact | axiom-gateway/src/policy.rs:753-793 | an address is reported if and only if it is IPv4-shaped and a whole token of the text |
| Ipv4Scan.ShapeIff | axiom-gateway/src/policy.rs:777-793 | IPv4-shaped is exactly four numbers of one to three digits, at most 255, joined by dots |
| Ipv4Scan.TrailingDotIsMissed | axiom-gateway/src/policy.rs:762-768 | so an address followed by a full stop is not reported, whatever the address |
| Screening.FindProtectedMatch | axiom-gateway/src/policy.rs:1318-1350 | the nested loops return the first match in parameter, string, MAC-before-IP order |
| Screening.MatchParametersExact | axiom-gateway/src/policy.rs:1318-1350 | a match is returned if and only if some parameter names some protected device |
| Screening.MatchIsReported | axiom-gateway/src/policy.rs:1318-1350 | a match is that of one text of one parameter; it carries that parameter's key and the data of a protected device that the text names, and its value is that device's formatted MAC, found there, or its IP, found there |
| Screening.FirstInOrder | axiom-gateway/src/policy.rs:1323-1347 | the match returned is that of the first parameter, in it of the first string, to name a protected device, and there of a MAC before any address |
| Screening.ScannableIs | axiom-gateway/src/policy.rs:833-839 | the strings looked at are a text, or every value of a choice, and no others |
| Screening.ReportedAsWrittenIff | axiom-gateway/src/policy.rs:576-583 | the value a match reports occurs in the text that triggered it if and only if it is an IP address found there, or that text as written spells the MAC with colons and no upper-case digit |
| Screening.TriggerShownIff | axiom-gateway/src/policy.rs:1327-1337 | if the text itself, not only the text without its whitespace, has a protected MAC, the first one triggers the match, and is reported as written if and only if it has colons and no upper-case digit |
| Screening.SpacedMacIsNotShown | axiom-gateway/src/policy.rs:820-827 | any MAC with a space anywhere in it is found and reported in a form that does not occur in the text |
| Screening.ReportedTextNeedNotOccur | axiom-gateway/src/policy.rs:576-583 | a concrete parameter whose match reports a value that occurs nowhere in it |
| Screening.SpelledMacCaught | axiom-gateway/src/policy.rs:1318-1350 | a protected MAC spelled with whitespace after text free of separators always yields a match |
| Screening.IsolatedMacCaught | axiom-gateway/src/policy.rs:1318-1350 | a protected MAC, in the text or in the text without its whitespace, yields a match if no earlier MAC-shaped window overlaps it |
| Screening.EverySpelledMacCaught | axiom-gateway/src/policy.rs:1318-1350 | if no two windows overlap, every protected MAC spelled anywhere yields a match |
| Screening.OverlappedMacPasses | axiom-gateway/src/policy.rs:701-706 | a concrete parameter that spells a protected MAC and yields no match |
| Screening.DeniedParameter | axiom-gateway/src/policy.rs:1358-1377 | a denial is returned if and only if some scanned string, lower-cased, contains a configured pattern |
| Screening.DenialIsFirst | axiom-gateway/src/policy.rs:1358-1377 | the denial returned names the first parameter that contains a denied pattern, a pattern it contains and the capability |
| Screening.RejectionExact | axiom-gateway/src/approval.rs:890-898 | which rejection a proposal gets, in the order of the checks |
| Screening.PassesIff | axiom-gateway/src/approval.rs:890-898 | a proposal passes if and only if the section exists, no parameter names a protected device and none contains a denied pattern |
| Policy.LoadEntries | axiom-gateway/src/policy.rs:1017-1094 | the loop over the file leaves exactly the capabilities that register, whatever order they come in |
| Policy.LoadedAllowsIff | axiom-gateway/src/policy.rs:980-1152 | whatever has happened since loading, a call is allowed if and only if the file has the current version and lists the capability with a valid tier, above Tier 0 with a protected-resource section, the peer is listed and unexpired, not suspended, no freeze stops that tier, the stated rate limit has passed and a permit is free |
| Policy.LoadedRefusal | axiom-gateway/src/policy.rs:1111-1152 | which refusal a call gets, in the order of the checks, read off the file |
| Policy.OpenedAsStated | axiom-gateway/src/policy.rs:1086-1099 | a policy starts unfrozen, with no one suspended or stamped and exactly the permits the file states |
| Policy.CapabilityPolicy.CheckAndAcquire | axiom-gateway/src/policy.rs:1111-1152 | outcome and new gate are those of running the five atomic sections one after another |
| Policy.AllowedIff | axiom-gateway/src/policy.rs:1111-1152 | a call is allowed if and only if the peer is currently listed and not suspended, the gate is not frozen for its tier, the rate limit has passed and a permit is free |
| Policy.OnlyServedCallsLeaveMarks | axiom-gateway/src/policy.rs:1104-1152 | a refused call changes nothing, except that one refused for want of a permit is stamped; an allowed call is stamped and takes one permit |
| Policy.ReleaseUndoesAcquire | axiom-gateway/src/policy.rs:879-882 | dropping the permit of an allowed call restores every permit there was; only the stamp remains |
| Policy.UnregisteredServesNoOne | axiom-gateway/src/policy.rs:980-1062 | a capability that does not register (wrong version, no valid tier, or above Tier 0 without a protected-resource section) refuses everyone and changes nothing |
| PolicyRuns.PermitsKeptByRun | axiom-gateway/src/policy.rs:1148-1151 | in every interleaving, free and held permits of a capability add up to its limit |
| PolicyRuns.PermitsBounded | axiom-gateway/src/policy.rs:1148-1151 | so the outstanding permits never exceed the configured concurrency |
| RateRuns.AllowedApart | axiom-gateway/src/policy.rs:1136-1146 | in every interleaving two allowed calls of one peer to one capability passed the rate limit at least its length apart |
| RateRuns.WindowBound | axiom-gateway/src/policy.rs:1136-1146 | any window of length W holds at most W / r + 1 allowed calls of one peer to one capability |
| KillSwitchRuns.OutcomeIsFinal | axiom-gateway/src/policy.rs:1111-1152 | in every run an outcome, once reached, is never another |
| KillSwitchRuns.FrozenStopsCalls | axiom-gateway/src/policy.rs:1128-1130 | a call above Tier 0 that reads the flag while it is set is refused for ever, also if the freeze is lifted right after |
| KillSwitchRuns.FreezeStopsAllToCome | axiom-gateway/src/policy.rs:1128-1130 | while frozen, no call above Tier 0 that has not yet read the flag is ever allowed |
| KillSwitchRuns.FrozenIsReadOnce | axiom-gateway/src/policy.rs:1128-1130 | a call past that read ends as if there were no freeze |
| KillSwitchRuns.SuspendedStopsCalls | axiom-gateway/src/policy.rs:1125-1127 | a call checked while its peer is suspended is refused for ever, also if the suspension is lifted right after |
| KillSwitchRuns.SuspensionStopsAllToCome | axiom-gateway/src/policy.rs:1125-1127 | while a peer is suspended, none of its calls not yet checked is ever allowed, at any tier |
| KillSwitchRuns.ExpiredIsAbsent | axiom-gateway/src/policy.rs:653-659 | in every run with a wall clock past an expiry, the gate behaves as if the expired peers had never been listed |
| KillSwitchRuns.ExpiredIsAbsentInQueries | axiom-gateway/src/policy.rs:1186-1219 | and so do the allowlist query and the summary |
| KillSwitchRuns.UninterruptedIsCheck | axiom-gateway/src/policy.rs:1111-1152 | the interleaved sections, run with nothing in between, are the sequential check |
| Base58.MulAddIsMultiplication | axiom-crypto/src/did.rs:372-383 | one pass of the carry loop turns the digits of n into the digits of n * mul + carry, in any base |
| Base58.CarryBound | axiom-crypto/src/did.rs:374-378 | inside the loop the carry stays below the multiplier: at most 255 when encoding, at most 57 when decoding |
| Base58.CarryLoop | axiom-crypto/src/did.rs:372-378 | the in-place inner loop leaves exactly the digits of that pass and the remaining carry |
| Base58.PushCarry | axiom-crypto/src/did.rs:379-382 | the following loop pushes the digits of the carry |
| Base58.CanonicalDigits | axiom-crypto/src/did.rs:360-395 | a digit string without a leading zero is the only one denoting its number |
| Base58.ConvertKeeps | axiom-crypto/src/did.rs:360-440 | radix conversion keeps the number denoted and the count of leading zeros |
| Base58.ConvertBack | axiom-crypto/src/did.rs:360-440 | radix conversion that keeps leading zeros is undone by converting back |
| Base58.Encode | axiom-crypto/src/did.rs:360-397 | the encoder returns the base58 text of its bytes, for every length |
| Base58.Decode | axiom-crypto/src/did.rs:400-440 | the decoder accepts exactly the non-empty valid texts of 32 bytes and returns those bytes |
| Base58.BytesRoundTrip | axiom-crypto/src/did.rs:360-440 | decoding the text of any byte string returns it |
| Base58.TextRoundTrip | axiom-crypto/src/did.rs:360-440 | encoding what any valid text spells returns that text |
| Base58.KeyTextIsCanonical | axiom-crypto/src/did.rs:360-440 | a string decodes to a key if and only if it is that key's encoding |
| Did.PrintParse | axiom-crypto/src/did.rs:86-168 | printing any parsed string returns that string, and only well-formed DIDs are parsed |
| Did.ParsePrint | axiom-crypto/src/did.rs:86-168 | a DID survives printing and parsing if and only if it is well formed |
| Did.PrintSays | axiom-crypto/src/did.rs:153-168 | a DID is the scheme, the name of the method and the identifier, then path, query after a question mark and fragment after a hash sign |
| Did.KeyRoundTrip | axiom-crypto/src/did.rs:59-67 | key to DID to text to DID to key is the identity on every 32-byte key |
| Did.KeyTextUnique | axiom-crypto/src/did.rs:171-178 | a key has one DID text per method |
| Did.PublicKeyIff | axiom-crypto/src/did.rs:171-178 | a DID has a key if and only if its identifier is that key's text and its method is not web |
| Codec.DecodeWire | axiom-codec/src/decoder.rs:40-136 | every well-formed frame, followed by anything, decodes to itself |
| Codec.DecodedIsWire | axiom-codec/src/decoder.rs:40-136 | every accepted buffer starts with the encoding of the well-formed frame it decodes to, up to the four reserved bits |
| Codec.RoundTripIffWellFormed | axiom-codec/src/encoder.rs:23-88 | a frame survives encoding and decoding if and only if it is well formed |
| Codec.SignatureCovers | axiom-codec/src/encoder.rs:225-242 | two well-formed frames have the same signed bytes if and only if they agree on everything but TTL and authentication |
| Codec.OversizedSignatureCoversOnlyLength | axiom-codec/src/encoder.rs:232-241 | beyond the payload limit the signed bytes agree if and only if the lengths do |
| Codec.DecodeHeaderAgrees | axiom-codec/src/decoder.rs:139-149 | when decoding succeeds the header reader returns the decoded header |
| Codec.DecodeErrors | axiom-codec/src/decoder.rs:40-60 | which error a buffer gets: for its length, then for the two bits of magic and the four of version |
| Codec.HeaderErrors | axiom-codec/src/decoder.rs:139-149 | the header reader needs the 58 bytes of a header only, and refuses exactly a wrong magic or version |
| Codec.PayloadSliceAgrees | axiom-codec/src/decoder.rs:270-312 | when decoding succeeds the zero-copy reader returns the decoded payload; otherwise it fails like the decoder, except that it does not notice an authentication that is cut off after the payload |
| Encoder.Encode | axiom-codec/src/encoder.rs:23-88 | writes exactly the wire form at the front of the buffer and nothing else, or reports the error and leaves the buffer alone |
| Encoder.EncodeFixedHeader | axiom-codec/src/encoder.rs:91-147 | writes the 58 header bytes at the front of the slice and nothing else, or reports a slice that is too short and writes nothing |
| Encoder.SignatureData | axiom-codec/src/encoder.rs:225-242 | returns the signed bytes, including the zeroed buffer of an oversized frame |
| Layouts.PackedLayout | axiom-codec/src/encoder.rs:105-138 | the first 24 bits of a frame are magic, version, type, flags, trust, priority, trace, routing and four reserved bits, from the highest |
| Layouts.HeaderLayout | axiom-codec/src/encoder.rs:136-147 | then five bytes of seconds, two of counter, the intent hash and the sender |
| Layouts.PayloadHeaderLayout | axiom-codec/src/encoder.rs:151-181 | a payload header is a type of 4 bits, a length of 24 and flags of 4 |
| Layouts.FrameLayout | axiom-codec/src/encoder.rs:23-88 | where each part of a frame stands, from the end of the one before |
| Layouts.SignedLayout | axiom-codec/src/encoder.rs:225-242 | what is signed is the frame as sent with the TTL at zero, up to the authentication |
| Layouts.OversizedLayout | axiom-codec/src/encoder.rs:232-241 | of an oversized frame zeros are signed, as many as it would have bytes |
| Layouts.CodesInOrder | axiom-types/src/frame.rs:20-100 | frame types, payload types, trust levels and priorities are numbered in the order of their lists |
| Layouts.ResponseTranscriptLayout | axiom-crypto/src/negotiate.rs:330-337 | the response transcript: domain, challenger, responder, nonce |
| Layouts.AckTranscriptLayout | axiom-crypto/src/negotiate.rs:343-359 | the ack transcript: domain, initiator, responder, both nonces, level |
| Layouts.HelloLayout | axiom-crypto/src/negotiate.rs:117-130 | where the fields of a Hello stand |
| Layouts.ChallengeLayout | axiom-crypto/src/negotiate.rs:175-182 | where the fields of a challenge stand |
| Layouts.ResponseAndAckLayout | axiom-crypto/src/negotiate.rs:215-231 | where the fields of a response and of an ack stand |
| Layouts.CertificateLayout | axiom-crypto/src/revocation.rs:67-97 | the signed bytes of a certificate, field by field, after a header with the name and version of the format |
| Layouts.WitnessLayout | axiom-crypto/src/revocation.rs:136-146 | the signed bytes of a vote, field by field, after a header of its own |
| Layouts.WireLayout | axiom-crypto/src/revocation.rs:680-703 | the serialized certificate, field by field, after a header of its own |
| Layouts.ReadErrors | axiom-crypto/src/revocation.rs:706-777 | the reader refuses exactly what is too short, for its last field included, or has another header |
| Layouts.ReasonsInOrder | axiom-crypto/src/revocation.rs:27-44 | the codes of the reasons |
| Decoder.Decode | axiom-codec/src/decoder.rs:40-136 | the offset-advancing decoder is the decoding function, for every buffer |
| Decoder.SkipToPayload | axiom-codec/src/decoder.rs:270-312 | the offset-advancing slice reader is its function, for every buffer |
| Audit.VerifyChain | axiom-gateway/src/audit.rs:451-514 | the loop with running hash and number is the first-fault search |
| Audit.VerifyIffChained | axiom-gateway/src/audit.rs:451-514 | a file is accepted if and only if every entry matches its hash, links to the one before and is numbered by its place; length and last hash are then reported |
| Audit.ChainedMeans | axiom-gateway/src/audit.rs:478-510 | a chain is verified if and only if each line is an entry that states the hash of its own content and of the content before it, from 32 zeros on, and its own place |
| Audit.RejectedAtFirstFault | axiom-gateway/src/audit.rs:478-510 | a rejected file is rejected with the first fault and its index |
| Audit.TruncationVerifies | axiom-gateway/src/audit.rs:451-514 | every prefix of a verified log verifies |
| Audit.EditIsReported | axiom-gateway/src/audit.rs:485-487 | editing entry i without rehashing reports ContentTampered at i if and only if the edit changes the hash |
| Audit.RehashedEditIsReported | axiom-gateway/src/audit.rs:489-499 | editing and rehashing a non-final entry i reports ChainLinkBroken at i + 1 |
| Audit.DeletionIsReported | axiom-gateway/src/audit.rs:493-507 | deleting a non-final entry i reports ChainLinkBroken at i, or SequenceGap at i when the removed hash equals its predecessor's |
| Audit.LastHashBinds | axiom-gateway/src/audit.rs:347-363 | two verified logs with one last hash hold the same contents, or their own entries exhibit a hash collision or a genesis hash |
| Audit.AuditLog.constructor | axiom-gateway/src/audit.rs:571-590 | a log opened on a verified file resumes with its length and last hash |
| Audit.AppendFits | axiom-gateway/src/audit.rs:625-664 | a line added to a verified file continues the chain if and only if the writer remembers the end of the file |
| Audit.AuditLog.Record | axiom-gateway/src/audit.rs:625-664 | file, memory and result for every way an append ends: synced, nothing written, part of a line, all but its newline, or written but not synced; text added to a line that was not ended joins it |
| Audit.AuditLog.LogTier2LinkedRecord | axiom-gateway/src/audit.rs:730-783 | appends one entry for a terminal record and none otherwise |
| Audit.Open | axiom-gateway/src/audit.rs:571-590 | opening succeeds if and only if the file on disk is chained |
| Audit.RecordedVerifies | axiom-gateway/src/audit.rs:625-664 | whatever is recorded, the file verifies, extends what was there and has one entry per event |
| Audit.LinesTell | axiom-gateway/src/audit.rs:640-653 | the i-th line recorded says what the i-th event says, field by field, parameters with their values unless the key is a secret's |
| Audit.SensitiveIff | axiom-gateway/src/audit.rs:213-227 | a key is sensitive if and only if one of the fourteen markers stands in it in any case |
| Audit.SensitiveValuesLeaveNoTrace | axiom-gateway/src/audit.rs:241-253 | logs of events that differ only in the values of sensitive parameters are the same files, hashes included |
| AuditRuns.RunVerifiesIff | axiom-gateway/src/audit.rs:451-664 | after any run of openings, closings and appends by any handles the file verifies if and only if no line was written in part or onto one without its newline, and each by a handle that had seen all lines before it |
| AuditRuns.FileIsItsEvents | axiom-gateway/src/audit.rs:571-664 | after such a run the file is what was there and one chained line per event written, in order |
| AuditRuns.FileTellsItsEvents | axiom-gateway/src/audit.rs:571-664 | and the i-th new line says what the i-th event written says |
| AuditRuns.OpeningsDoNotShow | axiom-gateway/src/audit.rs:571-664 | two such runs that write the same events write the same lines, however often the log was closed and opened |
| AuditRuns.OneWriterVerifies | axiom-gateway/src/audit.rs:571-664 | one writer at a time, on a verified file that ends in a newline and with appends that succeed or write nothing, always leaves a file that verifies and a memory in step with it |
| AuditRuns.TwoWritersBreak | axiom-gateway/src/audit.rs:571-664 | a run of two open handles after which the file does not verify |
| AuditRuns.FailedSyncBreaks | axiom-gateway/src/audit.rs:657-662 | a run with a failed sync after which the next append breaks the file |
| AuditRuns.MissingNewlineBreaks | axiom-gateway/src/audit.rs:469-658 | a run that leaves a line without its newline: the file verifies, the log opens again, and the next synced append breaks it |
| Hex.Encode | axiom-gateway/src/audit.rs:365-368 | hexadecimal text decodes to the bytes it was made from |
| Negotiation.HelloRoundTrip | axiom-crypto/src/negotiate.rs:117-152 | a Hello payload, followed by anything, decodes to itself |
| Negotiation.ChallengeRoundTrip | axiom-crypto/src/negotiate.rs:175-197 | a Challenge payload, followed by anything, decodes to itself |
| Negotiation.ResponseRoundTrip | axiom-crypto/src/negotiate.rs:215-231 | a Response payload, followed by anything, decodes to itself |
| Negotiation.AckRoundTrip | axiom-crypto/src/negotiate.rs:553-559 | an Ack payload, followed by anything, decodes to itself |
| Negotiation.ResponseTranscriptBinds | axiom-crypto/src/negotiate.rs:330-337 | a Response transcript determines challenger, responder and nonce |
| Negotiation.AckTranscriptBinds | axiom-crypto/src/negotiate.rs:343-359 | an Ack transcript determines both keys, both nonces and the trust level |
| Negotiation.TrustNegotiator.StartNegotiation | axiom-crypto/src/negotiate.rs:628-637 | opens a context with the drawn nonce and returns a Hello that decodes to that nonce and the own key |
| Negotiation.TrustNegotiator.ProcessFrame | axiom-crypto/src/negotiate.rs:640-753 | for every frame, reply and new state are those of the per-message transitions, error branches included |
| Negotiation.HelloExact | axiom-crypto/src/negotiate.rs:652-670 | a Hello is refused exactly for its version; otherwise it is challenged with the drawn nonce for thirty seconds and the context waits with the Hello's key and nonce |
| Negotiation.ChallengeExact | axiom-crypto/src/negotiate.rs:671-685 | a challenge is refused as expired, without a trace, if and only if the clock is past timestamp plus expiry, a sum of 64 bits; one in time is answered in an open context only, with a signature on challenger, own key and nonce |
| Negotiation.ResponseExact | axiom-crypto/src/negotiate.rs:686-704 | a response installs a session and is acked if and only if it answers the sender's context; which error it gets otherwise |
| Negotiation.AckExact | axiom-crypto/src/negotiate.rs:707-746 | an ack closes the context, and installs a session on the key and level it claims if and only if that key signed both nonces, both keys and the level |
| Negotiation.AckSays | axiom-crypto/src/negotiate.rs:534-560 | an ack carries level, own key and its signature on both keys, both nonces and the level |
| Negotiation.OtherFramesExact | axiom-crypto/src/negotiate.rs:640-650 | any other frame is an error, except the types that are ignored |
| Negotiation.CleanupIsInvisible | axiom-crypto/src/negotiate.rs:756-776 | cleaning up changes no answer about sessions, neither then nor at any later time |
| Negotiation.CleanupExact | axiom-crypto/src/negotiate.rs:773-776 | cleaning up keeps exactly the contexts up to thirty seconds after they were opened and the sessions that have not expired |
| Negotiation.BoundIffSenderIsKey | axiom-crypto/src/negotiate.rs:640-704 | after a Hello and the Response to its challenge, the session is filed under the sender with the Hello's key, so under the key it carries if and only if the two are equal |
| Negotiation.AckBoundIffSenderIsKey | axiom-crypto/src/negotiate.rs:707-746 | after an Ack that verifies, the session is filed under the key it carries if and only if the sender of the frame is the key the Ack claims |
| Negotiation.FiledUnderSender | axiom-crypto/src/negotiate.rs:640-753 | whatever message installs a session, it is filed under the key it carries if and only if the message, or the Hello before it, names the sender's key, and no other session changes |
| NegotiationRuns.ProducedAck | axiom-crypto/src/negotiate.rs:318-359 | an ack transcript that an honest node signed is an ack in its log, never a response |
| NegotiationRuns.KeptByRun | axiom-crypto/src/negotiate.rs:640-753 | over every run each logged step is justified by earlier ones |
| NegotiationRuns.Agreement | axiom-crypto/src/negotiate.rs:330-392 | if A installs a session by Ack for an honest B's key, B earlier acked A's key, A's nonce, the challenge nonce A answered and that trust level, having verified A's own response |
| NegotiationRuns.ResponderAgreement | axiom-crypto/src/negotiate.rs:498-529 | an ack, and with it the responder's session, for an honest initiator's key rests on a response that initiator made to the responder's own challenge |
| NegotiationRuns.AnswersAreInTime | axiom-crypto/src/negotiate.rs:200-202 | over every run, whenever a node answers, a challenge with that nonce was delivered to it then and its clock was not past timestamp plus expiry |
| SessionRuns.HeldSessionAgreement | axiom-crypto/src/negotiate.rs:640-753 | whenever an honest node holds a session on an honest node's key, the log has that session with its key and level, and before it the other node's ack or response that it rests on |
| SessionRuns.BoundIfSendersAreKeys | axiom-crypto/src/negotiate.rs:640-753 | if every Hello and Ack delivered claims the key of the sender it names, then in the whole run every session is held under the key it carries |
| ReplayRuns.OtherKeyIsInstalled | axiom-crypto/src/negotiate.rs:707-746 | from any world, a challenge and an ack made with any key, in frames that name B, leave A with a session with B on that key at the level the ack names |
| ReplayRuns.OtherKeyHappens | axiom-crypto/src/negotiate.rs:707-746 | such a run of enabled steps from the empty world of A and B, with a third key, at the highest level, B having done nothing |
| NonceRuns.InjectiveAgreement | axiom-crypto/src/negotiate.rs:422-445 | distinct sessions A installed in contexts it opened answer distinct acks |
| AckRuns.InjectiveResponderAgreement | axiom-crypto/src/negotiate.rs:498-529 | two acks of one responder for honest initiators are for different challenges and rest on different responses |
| ReplayRuns.ReplayInstalls | axiom-crypto/src/negotiate.rs:640-753 | from any world, a Hello with A's old nonce, the old challenge and the old ack install a session once more, in a context that A did not open |
| ReplayRuns.ReplayHappens | axiom-crypto/src/negotiate.rs:640-753 | a run of enabled steps from the empty world with one ack and two sessions for it, of which only the first is in a context that A opened |
| ExchangeRuns.ExchangeSucceeds | axiom-crypto/src/negotiate.rs:640-753 | from any world, an enabled exchange of four messages leaves both nodes with a session on the other's key at the Sig level and the log with answer, ack and session in order |
| ExchangeRuns.ExchangeHappens | axiom-crypto/src/negotiate.rs:640-753 | from the empty world of two nodes, a run of enabled steps with fresh nonces reaches those sessions |
| Revocation.SignedBytesBind | axiom-crypto/src/revocation.rs:67-97 | the signed bytes of a certificate determine every field but the signature |
| Revocation.WitnessBytesBind | axiom-crypto/src/revocation.rs:136-146 | the signed bytes of a vote determine every field but the signature |
| Revocation.DomainsSeparate | axiom-crypto/src/revocation.rs:67-146 | no certificate and vote have the same signed bytes |
| Revocation.WireRoundTrip | axiom-crypto/src/revocation.rs:680-777 | deserializing a serialized certificate, followed by anything, returns it |
| Revocation.SerializeRevocation | axiom-crypto/src/revocation.rs:680-703 | the appending serializer yields the wire form |
| Revocation.DeserializeRevocation | axiom-crypto/src/revocation.rs:706-777 | the offset-advancing reader is the reading function, for every buffer |
| Revocation.RevocationManager.RegisterKeyIssuer | axiom-crypto/src/revocation.rs:337-342 | adds the issuer once, keeping the others |
| Revocation.RegisterExact | axiom-crypto/src/revocation.rs:337-342 | a key's issuers are those it had, in order, and the new one once |
| Revocation.RevocationManager.ProcessRevocation | axiom-crypto/src/revocation.rs:353-488 | result and new state for every source, error branches included |
| Revocation.CertificateExact | axiom-crypto/src/revocation.rs:353-488 | a certificate revokes its key if and only if the key is not revoked, the certificate not older than the limit, and authorized for its source, trust level and right to propagate included; then it is on record and the invalidators are called; a refused one changes nothing |
| Revocation.RevocationManager.ProcessWitnessVote | axiom-crypto/src/revocation.rs:491-602 | result and new state for every vote, error branches included |
| Revocation.VoteExact | axiom-crypto/src/revocation.rs:491-602 | a vote counts if and only if the key is not revoked, the voter trusted to witness, signature and identity the voter's and no vote of it pending; the vote that makes up the number revokes the key with all votes on record |
| RevocationRuns.QuorumIsExact | axiom-crypto/src/revocation.rs:543-595 | the vote that completes a quorum leaves exactly the quorum on record |
| RevocationRuns.EveryRevocationJustified | axiom-crypto/src/revocation.rs:353-602 | in every run each revoked key is justified by its own signature where the configuration allows that, by a registered issuer's, or by exactly the required number of valid votes of distinct witnesses trusted when they voted |
| RevocationRuns.NoSelfRevocation | axiom-crypto/src/revocation.rs:370-468 | with self-revocation off, a key that no issuer is registered for is revoked by a quorum of votes only |
| RevocationRuns.InvalidatorsFireOnce | axiom-crypto/src/revocation.rs:298-302 | in every run the invalidators have fired exactly once for each revoked key and for no other |
| RevocationRuns.RevocationIsPermanent | axiom-crypto/src/revocation.rs:360-362 | a revoked key stays revoked with the same record in every later state |
| RawSession.RawSession.CreateHeartbeat | axiom-crypto/src/raw_session.rs:219-239 | advances the own sequence only, and yields a heartbeat that verifies under the own key |
| RawSession.RawSession.ProcessHeartbeat | axiom-crypto/src/raw_session.rs:242-310 | an accepted heartbeat yields exactly the new session; a rejected one leaves every field as it was |
| RawSession.AcceptedIff | axiom-crypto/src/raw_session.rs:248-298 | a heartbeat is accepted if and only if it is for this session, which is not terminated, within the clock skew, past the last sequence and within the window, and of the right code under the current or previous key; and its rotation, if any, neither too soon nor too often and of the right code |
| RawSession.ReceivedSays | axiom-crypto/src/raw_session.rs:302-432 | an accepted heartbeat makes the session active with nothing missed; only one with a rotation changes the key, to the hash of key, contribution and own sequence |
| RawSession.RefusedBecause | axiom-crypto/src/raw_session.rs:248-298 | which error a refused heartbeat gets, in the order of the checks |
| RawKeyRuns.AcceptedAreGenuine | axiom-crypto/src/raw_session.rs:242-432 | in every run each heartbeat accepted was made with the key the session had then or the one before it, within the skew of its clock, and the keys are those the accepted contributions give, one after another |
| RawSession.RawSession.ProcessAck | axiom-crypto/src/raw_session.rs:324-345 | accepts exactly an acknowledgement of this session under the current or previous key, and changes nothing |
| RawSession.AckExact | axiom-crypto/src/raw_session.rs:324-345 | which result an acknowledgement gets, from its session, code and the two keys |
| RawPairRuns.AckAcceptedIff | axiom-crypto/src/raw_session.rs:219-345 | over every run of a sender and a receiver: unless the hash collides on the run's own messages, the sender accepts an acknowledgement if and only if it was made before the receiver rotated its key |
| RawPairRuns.RotatesOnce | axiom-crypto/src/raw_session.rs:390-432 | and the receiver rotates at most once: from then on it refuses every heartbeat that asks for a rotation |
| RawPairRuns.FirstRotates | axiom-crypto/src/raw_session.rs:219-432 | a run in which the first heartbeat rotates the key |
| RawSession.RawSession.ProcessKeyRotation | axiom-crypto/src/raw_session.rs:390-432 | rotates exactly when the rate, the cap and the contribution allow it, and otherwise changes nothing |
| RawSession.RawSession.CheckHeartbeatTimeout | axiom-crypto/src/raw_session.rs:348-365 | new state and result of the timeout check, with the 32-bit count |
| RawSession.CheckSays | axiom-crypto/src/raw_session.rs:348-365 | what a check does: nothing within two intervals; later it counts the missing heartbeats in 32 bits and ends or degrades the session |
| RawSession.TimeoutExact | axiom-crypto/src/raw_session.rs:348-365 | while the count fits 32 bits, a check times out if and only if one interval more than the grace, and at least two, have passed in full |
| RawSession.TimeoutAgreesIff | axiom-crypto/src/raw_session.rs:348-365 | for every time, the check times out as promised if and only if the 32-bit count has not wrapped to less than the grace |
| RawSession.WrappedTimeoutIsMissed | axiom-crypto/src/raw_session.rs:353 | a concrete time at which the wrapped count misses the timeout |
| RawSessionRuns.HistoriesInOrder | axiom-crypto/src/raw_session.rs:242-432 | in every run accepted sequence numbers strictly increase by at most the window, and rotations stay within the cap and spaced after positive times |
| RawSessionRuns.TimesOutWhenOverdue | axiom-crypto/src/raw_session.rs:348-365 | in every run a check times out exactly when the patience has passed since the last accepted heartbeat |
| RawSessionRuns.TerminationAbsorbs | axiom-crypto/src/raw_session.rs:250-253 | in every run without a wrapped count a terminated session stays terminated and accepts nothing more |
| RawSessionRuns.TerminationAbsorbsIff | axiom-crypto/src/raw_session.rs:348-365 | in any run at all a terminated session stays terminated if and only if no check counts between one missed heartbeat and the grace; meanwhile nothing is accepted |
| RawSessionRuns.WrapRevives | axiom-crypto/src/raw_session.rs:353-360 | a run from a new session that terminates it and brings it back by a wrapped count |
| RawManager.RawSessionManager.EstablishSession | axiom-crypto/src/raw_session.rs:530-575 | stores the session under its derived identifier and points the peer at it, changing nothing else |
| RawManager.RawSessionManager.TerminateSession | axiom-crypto/src/raw_session.rs:595-599 | removes the session and the index entry of its peer, and nothing else |
| RawManager.RawSessionManager.CheckTimeouts | axiom-crypto/src/raw_session.rs:602-617 | the two loops check every session, report exactly the overdue ones and remove them with the index entries of their peers |
| RawManager.EstablishedIsFound | axiom-crypto/src/raw_session.rs:569-574 | an established session is the one its peer is found by, and no other lookup changes |
| RawManager.TerminationHidesPeer | axiom-crypto/src/raw_session.rs:588-599 | after terminating a session its peer is found by none, and no other lookup changes; the index never dangles |
| RawManager.HeldSessionHidden | axiom-crypto/src/raw_session.rs:595-599 | an indexed session still held is lost to lookups if and only if a session of its peer is terminated |
| RawManager.SweepKeepsIndex | axiom-crypto/src/raw_session.rs:602-617 | a sweep keeps the index sound and exactly the sessions that were not overdue |
| RawManager.SweepHidesIff | axiom-crypto/src/raw_session.rs:588-617 | after a sweep an indexed peer is found by none if and only if one of its sessions was overdue; otherwise by its checked session |
| RawManager.SweepHidesRenewed | axiom-crypto/src/raw_session.rs:530-617 | from an empty manager: a peer reconnects, and a sweep while its first session is overdue hides the new one, which is still held |
| RawManager.RenewedIsHidden | axiom-crypto/src/raw_session.rs:530-617 | under the default grace ten intervals suffice for that, and terminating the first session does the same |
| Sanitize.StripAnsiEscapes | axiom-gateway/src/sanitize.rs:180-231 | the index loop yields the text without its escape sequences, and reports whether there was an escape |
| Sanitize.MeasureEscape | axiom-gateway/src/sanitize.rs:196-227 | the inner loops end an escape exactly where the grammar does, unterminated ones at the end |
| Sanitize.ControlSequenceRemoved | axiom-gateway/src/sanitize.rs:198-205 | a control sequence vanishes with its parameters and final byte, and nothing after it |
| Sanitize.CommandRemoved | axiom-gateway/src/sanitize.rs:207-226 | an operating system command vanishes with its text, bare escapes in it included, and either terminator, and nothing after it |
| Sanitize.UnterminatedSwallowsRest | axiom-gateway/src/sanitize.rs:196-227 | a control sequence or command that is never ended takes all the rest with it and nothing before |
| Sanitize.BareEscapesVanish | axiom-gateway/src/sanitize.rs:228-229 | if no escape is followed by a bracket, exactly the escape characters are removed |
| Sanitize.TextIsKept | axiom-gateway/src/sanitize.rs:188-193 | text without escapes is kept |
| Sanitize.SanitizeStr | axiom-gateway/src/sanitize.rs:243-266 | value and both flags of a cleaned string |
| Sanitize.SanitizedIsClean | axiom-gateway/src/sanitize.rs:243-266 | the value is a subsequence of the text, holds no stripped character and at most 256 characters |
| Sanitize.SanitizedExact | axiom-gateway/src/sanitize.rs:243-266 | of the text without escape sequences the value holds no ASCII control, bidirectional override or isolate, zero-width space or byte order mark, and every other character up to 256; and each flag says exactly what was done |
| Sanitize.UnchangedIffUnflagged | axiom-gateway/src/sanitize.rs:243-266 | the text is unchanged if and only if neither flag is raised |
| Sanitize.SanitizedTwice | axiom-gateway/src/sanitize.rs:243-266 | a second pass changes nothing and raises no flag |
| Sanitize.LeavesAreSanitized | axiom-gateway/src/sanitize.rs:277-293 | the string leaves of a cleaned tree are the cleaned leaves of the tree, in order |
| Sanitize.EveryLeafIsClean | axiom-gateway/src/sanitize.rs:277-293 | every string leaf of a cleaned tree is clean and short |
| Sanitize.EveryNodeInPlace | axiom-gateway/src/sanitize.rs:277-293 | where any path leads in a tree it leads in the cleaned one: to the same number, flag or null, to an array as long, to an object with the same keys in order, or to the record of a cleaned string |
| ExternalAudit.ExternalAuditWriter.Log | axiom-audit/src/external.rs:307-359 | refuses without collectors or with a full queue, changing nothing; otherwise chains, numbers and queues one entry |
| ExternalAudit.EntrySays | axiom-audit/src/external.rs:475-498 | what is logged: next number, own name, the event as given, the link to the entry before, the hash of all that and the signature on it |
| ExternalAudit.ExternalAuditWriter.ProcessReceipt | axiom-audit/src/external.rs:428-455 | removes exactly the first pending entry the receipt acknowledges, and nothing for a wrong or repeated one |
| ExternalAudit.ReceiptExact | axiom-audit/src/external.rs:428-455 | a receipt drops the first pending entry of its number if and only if it has its hash and verifies under the key it names |
| ExternalAudit.ExternalAuditCollector.ReceiveEntry | axiom-audit/src/external.rs:608-661 | accepts exactly the next linked entry with a valid signature that the store takes; an entry refused or not stored changes nothing visible |
| ExternalAudit.AcceptsIff | axiom-audit/src/external.rs:608-635 | an entry is accepted if and only if its node's signature on its hash verifies and it is the node's first, linked to zeros, or numbered and linked after the node's last |
| ExternalAudit.ReceiptSays | axiom-audit/src/external.rs:645-661 | what a receipt says: number and hash of the entry, collector, time and position, and the collector's signature |
| ExternalAuditRuns.StoredAfterOwn | axiom-audit/src/external.rs:625-646 | a genuine entry that is accepted is the next one of its log |
| ExternalAuditRuns.OutstandingDrop | axiom-audit/src/external.rs:428-455 | removing a pending entry is marking its number as receipted |
| ExternalAuditRuns.ReplicaIsPrefix | axiom-audit/src/external.rs:307-661 | under any loss, repetition and reordering the collector holds a prefix of each writer's log, and a writer's queue is its log without the receipted entries, in order |
| ExternalAuditRuns.ReceiptedIsStored | axiom-audit/src/external.rs:428-661 | every receipted entry is stored, or the collector holds another node's entry on which the hash collides |
| ExternalReceiptRuns.ReceiptedIsStoredIfNamed | axiom-audit/src/external.rs:428-661 | with receipts that anyone may have made, as long as they name the collector: every receipted entry is stored, or the hash collides |
| ExternalReceiptRuns.ForeignReceiptClears | axiom-audit/src/external.rs:428-541 | a receipt that names any other key under which it verifies clears an entry that was never stored |
| ExternalTamperRuns.ReplicaMatchesIff | axiom-audit/src/external.rs:608-678 | over every run in which entries are altered on the way but not signed anew, what is stored matches a prefix of the writer's log if and only if every stored entry states the hash of its content, barring a collision |
| ExternalTamperRuns.AlteredIsStored | axiom-audit/src/external.rs:664-678 | a run in which a first entry with another payload is stored in place of the one that was written |

## Left out

- File I/O, permissions, TOML and JSON text: files are sequences of parsed lines, with a note whether the last one is ended, and policy files already parsed entries. A part of a line, and a line with text joined to it, read as no entry.
- Ed25519 and BLAKE3 themselves, and the layout of the intent hash preimage, which is not self-delimiting: approval results are equalities of hashes.
- Parsing the MAC text of a policy file, hexadecimal peer identifiers in it, and sorted listings for display.
- `Display` texts, prompts, tracing, the Telegram channel, the demo, benches and analyst scoring.
- The untrusted-data envelope around sanitized JSON, and object keys, which the sanitizer leaves alone.
- Creating revocation certificates, listing what to propagate, and certificate serialization beyond one certificate.
- Which RAW sessions are due for a heartbeat, counts of active ones, and retry counts of pending audit entries.
- Attestation, encryption, kernel, clock, guardian, baseline, retention and compliance modules: counters, maps and thin wrappers.
- axiom-audit/src/log.rs: an easier variant of the gateway's chain.
- Upgrade, downgrade and error messages of the negotiation, which the code ignores.
- RAW peers that both send and both rotate: the runs of two sessions have one sender.
- RawSession.RawSession.CheckHeartbeatTimeout: requires a positive interval, because the code divides by it.
- RawSession.RawSession.CreateHeartbeat: requires a positive rotation interval, because the code divides by it.
- Negotiation.TrustNegotiator.ProcessFrame: replies carry sender, trust level and payload only, not the other header fields of a frame.
