# AgentPaaS audit log, bundles and small protocols, in Dafny

The project models three parts of AgentPaaS and proves what they promise.

**The tamper-evident audit log.** A log is a byte string of JSON lines; each record carries the hash of the one before
it. `Json`, `JsonText`, `JsonRoundTrip`, `JsonPrefix` and `JsonLex` hold the JSON printer and parser on bytes, `Values`,
`Records`, `RecordTheorems`, `Decoder`, `Decoding` and `CanonicalForm` the records, their lines and canonical bytes, and
their decoding. `Chain`, `ChainTheorems` and `CutRecovery` hold the three readers of a log (strict replay, recovery
rescan, offline reader), `Appending` what one append, torn or whole, fresh or stale, does to any readable file, `Sharing`
any interleaving of several writers, `Checkpoints`, `Verifier`, `Reports` and `Anchoring` the signed checkpoint chain and
the offline verifier, `Runs`, `Cadence`, `AnchorLoss` and `Carrying` the state machine of opens, appends, closes and
crashes at any byte of either file, `Writer` the writer and checkpoint manager as classes, `Index` the rebuildable index.

**Deterministic bundles.** `Modular`, `Octets`, `Signing` and `Derivation` hold deterministic ECDSA with the generator of
section 3.2 of RFC 6979, `Paths`, `Bundle`, `Refusals`, `BundleWriting`, `BundleRoundTrip`, `Extraction` and `Moving` the
archive writer, the hardened reader and the extraction of an archive, an archive being a sequence of entries.

**Three small protocols.** `Framing` and `Dispatch` are the Content-Length framing of the MCP adapter, `ReplayGuard` the
bounded replay guard of the Hermes plugin, `SeatFlag`, `SeatWait` and `SeatRestore` the flag flip and restore of
`seat-wait prove`.

Conventions. A `string` is a byte string, one char per byte; `Octets` are bytes as numbers. Integers are unbounded
except where a bound is written out (`Int64`). SHA-256, HMAC, the elliptic curve, the checkpoint signature, float64
reprinting and clock readings are parameters. No global collision-freeness is assumed: a theorem that needs it concludes
"or the hash function collides on two inputs taken from the data at hand", which is stronger. The laws asked of the
record decoder (`Records.Codec.Lawful`) are met by the decoder of this project (`Decoder.StandardCodecLawful`).
File operations fail where an `Io`, `Fault` or `Oracle` value says so; a lock is an atomic step.

Where the code differs from what its comments or documentation suggest, the code is modelled and the exact condition
under which the promise holds is proved:

- A recovery scan counts scanner tokens, from which a carriage return has been stripped:
  `ChainTheorems.RecoveryOffset` (when the cut is at the bad line), `CutRecovery.RecoveryKeepsExactly` (when the log
  opens at all, and when all its records are kept), `Appending.CarriageReturnMovesTheCut` and
  `CutRecovery.CarriageReturnsBlockOpen` (the inputs).
- The lock taken by an append does not keep several writers together, because none looks at the file again:
  `Sharing.SharedLog` (exact condition), `Sharing.DaemonOvertaken` (the run).
- A complete record that reached the file without its newline is accepted, and the next append destroys both, even when
  a checkpoint anchors the first: `Cadence.AnchoredRecordLost` (the run), `AnchorLoss.AnchorStepExact` (when an anchored
  record is lost), `Cadence.LogStepExact` (when any is) and `Appending.AppendOutcome` (exact conditions). The promises
  about whole histories are therefore proved for those in which each write finds its file newline-terminated; crashes
  may stop a write at any byte.
- A payload number that does not survive float64, or a string that is not UTF-8, breaks the log it is written to:
  `Appending.ReadBackExactly` (exact condition), `Appending.StrayByteBreaks` (the input).
- A writer that goes on after a failed write loses every later record: `Appending.AfterFailedAppend` (exact condition).
- A checkpoint line cut short blocks every later open, and one without its newline does so after the next checkpoint:
  `Cadence.TornCheckpointBlocksOpen` (exact condition), `Cadence.UnendedCheckpointBlocksOpen`.
- An emptied log is reported clean whatever its checkpoints anchor: `Anchoring.OnlyTotalTruncationIsMissed` (exact condition).
- An extraction that meets a directory of the same name in the destination stops with part of the files moved:
  `Moving.ExtractionDelivers` (exact condition).
- Bundles with extra files are written and never opened: `BundleRoundTrip.WrittenReadable` (exact condition).
- Frames above 1 MiB are written and never read: `Framing.FrameReadBack` (exact condition).
- A used confirmation id is forgotten after 10,000 others: `ReplayGuard.ReplayWindow` (exact condition).
- The flag restore reports success on a file whose tail an earlier short write has cut off:
  `SeatRestore.RestoreExact` (exact condition), `SeatRestore.CutLosesTail` (the input); a first flip that stops half way
  is not undone at all: `SeatRestore.HalfSetExact` (exact condition), `SeatRestore.HalfSetStays` (the input).

## Model

| member | source | states |
|---|---|---|
| `JsonRoundTrip.RoundTrip` | internal/audit/record.go:72-153 | parsing the printed form of any printable tree gives that tree back |
| `JsonRoundTrip.PrintInjective` | internal/audit/record.go:72-153 | two printable trees with the same bytes are the same tree |
| `JsonRoundTrip.ParseClean` | internal/audit/record.go:72-153 | printing and parsing any tree, with strings of any bytes, gives the tree with each byte outside a UTF-8 rune replaced by U+FFFD |
| `JsonRoundTrip.PrintShrinks` | internal/audit/record.go:72-153 | the replaced tree prints no longer, and shorter unless every string was UTF-8 |
| `JsonText.TextOf` | internal/audit/record.go:72-153 | the printed form of every tree, with its punctuation written out |
| `JsonText.EscapesAre` | internal/audit/record.go:72-153 | each ASCII byte prints as the escape the standard library gives it, the three HTML characters included, or as itself |
| `JsonText.EscapeQuiet` | internal/audit/record.go:72-153 | texts of ordinary ASCII print as themselves |
| `JsonText.SeparatorsEscaped` | internal/audit/record.go:72-153 | U+2028 and U+2029 are escaped |
| `JsonText.WideRunesStay` | internal/audit/record.go:72-153 | every other rune beyond ASCII prints as itself |
| `JsonText.EscapeConcat` | internal/audit/record.go:72-153 | texts are escaped rune by rune |
| `JsonText.RuneReads` | internal/audit/record.go:72-153 | the accepted UTF-8 sequences are exactly the encodings of the Unicode scalar values |
| `JsonText.EncodeReads` | internal/audit/writer.go:167-170 | encoding a code point and reading its bits gives it back |
| `JsonText.PairReads` | internal/audit/writer.go:167-170 | two surrogate escapes name the rune they stand for |
| `JsonText.LoneHalf` | internal/audit/writer.go:167-170 | half a pair reads as U+FFFD |
| `JsonText.PairExample` | internal/audit/writer.go:167-170 | the escapes of U+1F600 read as its four bytes |
| `JsonText.StringsRefused` | internal/audit/writer.go:167-170 | raw control characters, unknown escapes and open ends make a string unreadable |
| `JsonText.NumbersAre` | internal/audit/writer.go:167-170 | which number texts are JSON, at the corners of the grammar |
| `JsonText.LeadingSpace` | internal/audit/writer.go:167-170 | a document begins behind tabs, newlines, carriage returns and blanks, and with no other odd byte |
| `JsonText.DecimalsAre` | cmd/agentpaas-mcp/main.go:197-207 | integers print in decimal, most significant digit first |
| `Decimal.ParsePrintInt` | cmd/agentpaas-mcp/main.go:183-202 | parsing the decimal text of any integer gives it back |
| `JsonPrefix.StrictPrefixRejected` | internal/audit/writer.go:167-170 | no strict prefix of a printed object, with strings of any bytes, is a document, which is what makes torn lines recognisable |
| `JsonLex.TornMerged` | internal/audit/writer.go:167-170 | a printed object cut anywhere with a whole record object behind it is no document |
| `Values.ReadBack` | internal/audit/record.go:112-119 | a payload value is read back from its tree unchanged exactly when all its numbers survive float64 |
| `Values.WrittenReadBack` | internal/audit/record.go:112-119 | a payload value is written and read back unchanged exactly when its numbers survive and its strings are UTF-8 |
| `Values.TreeInjective` | internal/audit/record.go:112-119 | different values have different JSON trees |
| `Values.SortedKeysUnique` | internal/audit/record.go:78-82 | any collection order of a map's keys sorts to one and the same sequence |
| `Values.CollectKeys` | internal/audit/record.go:78-81 | every key once, in no particular order |
| `Values.WriteMembers` | internal/audit/record.go:86-108 | the buffer loop over the sorted keys writes the printed form of the map |
| `Values.MarshalJSON` | internal/audit/record.go:72-109 | the bytes are a function of the map alone, at every depth, for every iteration order |
| `Values.OrderedMarshal` | internal/audit/record.go:112-119 | the recursive marshaller agrees with the printer on every value |
| `RecordTheorems.CanonicalIdentifies` | internal/audit/record.go:124-153 | canonical bytes of two records are equal exactly when the records agree on every field but the record hash, nil and empty payload counting as one |
| `CanonicalForm.CanonicalText` | internal/audit/record.go:124-153 | the canonical bytes of every record, written out member by member |
| `CanonicalForm.DecodeCanonical` | internal/audit/record.go:124-153 | the decoder reads the canonical bytes as the record without its hash, an absent payload as the empty one |
| `CanonicalForm.LineText` | internal/audit/record.go:31-54 | the line of every record, written out member by member |
| `RecordTheorems.CheckpointCanonicalIdentifies` | internal/audit/checkpoint.go:46-67 | canonical bytes of two checkpoints are equal exactly when they agree on every field but hash and signature |
| `CanonicalForm.CanonicalCheckpointText` | internal/audit/checkpoint.go:46-67 | the canonical bytes of every checkpoint, written out member by member |
| `CanonicalForm.DecodeCanonicalCheckpoint` | internal/audit/checkpoint.go:46-67 | the decoder reads them as the checkpoint without hash and signature |
| `CanonicalForm.CheckpointText` | internal/audit/checkpoint.go:23-31 | the line of every checkpoint, written out member by member |
| `RecordTheorems.RereadUnchanged` | internal/audit/record.go:31-54 | printing and parsing a record gives it back exactly when its payload numbers survive float64 and its strings are UTF-8 |
| `RecordTheorems.CanonicalSurvives` | internal/audit/record.go:124-153 | canonical bytes shared with a record of UTF-8 strings come from UTF-8 strings |
| `Decoder.DecodeEncode` | internal/audit/writer.go:167-170 | decoding a written line gives the record up to float64 and U+FFFD, for strings of any bytes |
| `Decoder.DecodePrefix` | internal/audit/writer.go:167-170 | a line cut anywhere is no record |
| `Decoder.DecodeMerged` | internal/audit/writer.go:167-170 | any line that is a record stops being one when an object follows on it |
| `Decoder.DecodeTornMerged` | internal/audit/writer.go:167-170 | a written line cut anywhere and the whole next line behind it are together no record |
| `Decoder.DecodeSpace` | internal/audit/writer.go:157-170 | a carriage return in front of or behind a record does not change what is decoded |
| `Decoder.DecodeSame` | internal/audit/writer.go:167-170 | if part of a record's line is a record, every longer part is, and the same one |
| `Decoder.DecodedNormal` | internal/audit/writer.go:167-170 | whatever is decoded, field names matched without regard to case, prints and survives another round trip |
| `Decoding.NamesFold` | internal/audit/writer.go:167-170 | field names match in any mixture of cases |
| `Decoding.OneMore` | internal/audit/writer.go:167-170 | one more member at the end of an object: an unknown one changes nothing, a later text replaces an earlier one, nulls keep texts and numbers, a value of the wrong type refuses the line |
| `Decoding.InOrder` | internal/audit/writer.go:167-170 | members count one by one, from first to last |
| `Decoding.SequenceNumbers` | internal/audit/writer.go:167-170 | sequence numbers are the integers of 64 bits without fraction or exponent |
| `Decoding.PayloadsMerge` | internal/audit/writer.go:167-170 | two payload objects are merged, the later winning |
| `Decoding.LaterMemberWins` | internal/audit/writer.go:167-170 | of two members of one name inside a payload the later counts |
| `Decoding.OtherDocuments` | internal/audit/writer.go:167-170 | null is the empty record and any other document but an object none |
| `Decoder.DecodeEncodeCheckpoint` | internal/audit/checkpoint_mgr.go:88-91 | decoding a written checkpoint line gives the checkpoint back |
| `Decoder.DecodeCheckpointPrefix` | internal/audit/checkpoint_mgr.go:88-91 | a checkpoint line cut anywhere is no checkpoint |
| `Decoder.DecodeCheckpointMerged` | internal/audit/checkpoint_mgr.go:88-91 | any line that is a checkpoint stops being one when an object follows on it |
| `Decoder.StandardCodecLawful` | internal/audit/record.go:31-153 | this decoder meets every law the theorems about logs ask of a codec |
| `ChainTheorems.CheckExtends` | internal/audit/verifier.go:198-243 | the per-line check accepts a record exactly when the longer list is still a hash chain numbered from 1 |
| `ChainTheorems.ReadLogValid` | internal/audit/verifier.go:186-250 | what is returned for any file, sound or broken, is a valid hash chain |
| `ChainTheorems.ChainsWithOneHead` | internal/audit/verifier.go:186-250 | two chains with one head hash are equal at every position, or the hash collides on two of their canonical records |
| `ChainTheorems.HeadPinsHistory` | internal/audit/verifier.go:186-250 | the same for any two files read without fault |
| `ChainTheorems.RescanAgrees` | internal/audit/writer.go:239-327 | recovery rescan, strict replay and offline reader accept and reject alike and stop at the same line; the cut is that line's offset less the stripped carriage returns |
| `ChainTheorems.KeptPrefix` | internal/audit/writer.go:239-353 | the bytes in front of the first bad line are newline-terminated and read back to the same records without fault |
| `ChainTheorems.RecoveryOffset` | internal/audit/writer.go:254-327 | the cut falls on the start of the first bad line exactly when no carriage return was stripped before it |
| `ChainTheorems.FirstSeqMeansEmpty` | internal/audit/writer.go:281-294 | the wrong-first-number fault is raised only before any record was accepted, so cutting to nothing loses nothing |
| `CutRecovery.RecoveryKeepsExactly` | internal/audit/writer.go:239-353 | for every file recovery leaves a byte prefix of it, all of it if it was sound, newline-terminated if it was broken and no carriage return was stripped; a broken log opens exactly when the cut falls into no line's text, then at the head of what is left, which reads without fault; its records are always the first of those of the offline reader, and all of them exactly when the file was sound or no more carriage returns were stripped than there are bytes between the text of the last record and the bad line |
| `CutRecovery.CarriageReturnsBlockOpen` | internal/audit/writer.go:65-100 | two blank CR LF lines and a record in front of a bad line make the recoverable open fail |
| `ChainTheorems.NoLongerPrefix` | internal/audit/writer.go:239-353 | no newline-terminated readable prefix holds more records or more bytes: the kept one is maximal |
| `Appending.AppendOutcome` | internal/audit/writer.go:370-425 | with any cached head and on every readable log, ended by a newline or not, an append keeps the log readable exactly when the head is the file's own, nothing but a carriage return stands behind the last newline and the line is under 1 MiB; then it adds just that record, otherwise every reader stops at that line and the last record is lost with it exactly when it had no newline |
| `Carrying.AppendCarries` | internal/audit/writer.go:393-405 | after an append that leaves the log readable its last record has every field of the content the caller gave, the next number, the old head hash and the hash of its own canonical bytes |
| `Sharing.SharedLog` | internal/audit/writer.go:355-434 | any number of writers opening and appending in any order under the lock: the log stays readable exactly when no append comes from a writer that another has overtaken since it last opened the log, and it holds exactly the appends before the first such one, chained in order |
| `Sharing.BeforeStaleIs` | internal/audit/writer.go:355-434 | the first append out of turn is found from the order of events alone |
| `Sharing.DaemonOvertaken` | internal/audit/writer.go:361-364 | with the daemon open, one command that opens the log and appends costs the daemon its next append and all that follow |
| `Carrying.ChainedCarries` | internal/audit/writer.go:355-434 | what several writers have chained carries their contents in the order of the appends |
| `Appending.AppendLine` | internal/audit/writer.go:410-416 | what any one line does to a sound log depends only on whether it extends the chain, with or without its newline |
| `Appending.BrokenStaysBroken` | internal/audit/writer.go:370-425 | after a bad line no later append is ever read |
| `Appending.ReadBackExactly` | internal/audit/writer.go:370-425 | an appended record, strings of any bytes, is read back if its numbers survive float64 and its strings are UTF-8, and only then unless the hash collides on the record and its reread form; if it is not, the earlier records stay |
| `Appending.StrayByteBreaks` | internal/audit/writer.go:370-425 | an actor of the one byte 0x80 is such a record, behind every readable log |
| `Appending.AfterFailedAppend` | internal/audit/writer.go:405-425 | a writer that appends again after a write that failed or was not synced keeps the log readable exactly when no byte had reached the file; otherwise no later record is ever read |
| `Appending.CrashSafety` | internal/audit/writer.go:239-353 | after any strict prefix of the next line reached the file, the recoverable open restores exactly the old bytes, records and head |
| `Appending.TailDropped` | internal/audit/writer.go:239-353 | any undecodable last line is dropped and nothing else |
| `Appending.CompleteLineAccepted` | internal/audit/writer.go:149-237 | a whole line without newline is accepted as a record |
| `Appending.MissingNewlineLosesBoth` | internal/audit/writer.go:411-416 | whatever begins like an object, written behind any readable log without its last newline, makes every reader drop it and the last record |
| `Appending.CarriageReturnMovesTheCut` | internal/audit/writer.go:254-270 | one CR LF line in front of a bad line makes recovery cut off the newline of a good record |
| `Checkpoints.CheckpointWritten` | internal/audit/checkpoint_mgr.go:121-171 | a written checkpoint is read back behind all earlier ones |
| `Checkpoints.TornCheckpointUnreadable` | internal/audit/checkpoint_mgr.go:75-104 | the checkpoint file becomes unreadable exactly when a checkpoint line is cut strictly inside |
| `Checkpoints.CheckpointMerged` | internal/audit/checkpoint_mgr.go:75-104 | a checkpoint written behind one that ends in neither newline nor carriage return makes the file unreadable for good |
| `Checkpoints.NextCheckpointHonest` | internal/audit/checkpoint_mgr.go:121-171 | a new checkpoint of the head keeps the chain numbered, linked, hashed, signed and anchored at real records |
| `Carrying.CheckpointCarries` | internal/audit/checkpoint_mgr.go:121-171 | a written checkpoint is read with the given time, the head, the next number, the last hash, its own hash and the signature over it |
| `Checkpoints.MoreRecords` | internal/audit/checkpoint_mgr.go:121-171 | later appends never spoil an honest checkpoint chain |
| `Verifier.ReadAuditChain` | internal/audit/verifier.go:186-250 | the scanning loop computes the reading all the theorems speak of |
| `Verifier.ReadCheckpointFile` | internal/audit/verifier.go:253-281 | the scanning loop computes the checkpoint list, or fails as a whole |
| `Verifier.VerifyAuditChain` | internal/audit/verifier.go:34-181 | the five phases produce exactly the specified report |
| `Verifier.CheckCheckpoints` | internal/audit/verifier.go:81-126 | the checkpoint loop reports, in order, every broken link, signature and self-hash |
| `Verifier.NoAnchorIssues` | internal/audit/verifier.go:129-166 | behind any valid chain no anchor issue is reported exactly when the chain is empty, the anchor is 0 or below and so never compared, or the chain holds the anchored record under the anchored hash |
| `Verifier.CheckGaps` | internal/audit/verifier.go:169-178 | every jump in the checkpoint numbers is reported |
| `Reports.SignaturesReported` | internal/audit/verifier.go:81-126 | an invalid signature is reported for exactly those checkpoints whose signature the given key does not verify over the digest of their hash, or which lack one of the two, under their number and line |
| `Reports.CleanMeansSigned` | internal/audit/verifier.go:81-126 | in a report without issue every checkpoint is signed by the given key |
| `Reports.LinksReported` | internal/audit/verifier.go:81-126 | a broken chain is reported for exactly those checkpoints that miss their predecessor's hash or their own |
| `Reports.GapsReported` | internal/audit/verifier.go:169-178 | a missing checkpoint is reported for exactly the jumps in the checkpoint numbers, and under 0 for one in the record numbers |
| `Reports.TruncationReported` | internal/audit/verifier.go:129-166 | a truncated tail is reported exactly when the latest anchor lies beyond the records of a log that is not empty |
| `Reports.TamperingReported` | internal/audit/verifier.go:129-166 | tampering is reported under a line exactly for an anchored record of another hash, and without one exactly for a missing or otherwise broken log |
| `Reports.ReorderReported` | internal/audit/verifier.go:34-80 | a reorder is reported exactly for a record with another predecessor |
| `Reports.BreakReported` | internal/audit/verifier.go:186-250 | which line breaks a log how: a wrong number, a wrong predecessor, a wrong hash, no record |
| `Reports.LongLineReported` | internal/audit/verifier.go:186-250 | a line of 1 MiB or more is never read |
| `Reports.FiguresReported` | internal/audit/verifier.go:34-181 | the counts, heads and anchors of a report |
| `Verifier.VerifiesExactlyWhen` | internal/audit/verifier.go:34-181 | no issue is reported exactly when the log is one faultless chain, the checkpoints are a nonempty consecutive, linked, correctly hashed and signed chain, and the latest anchor matches, is 0 or below and so never compared, or the log is empty |
| `Anchoring.ChainsMeet` | internal/audit/verifier.go:81-126 | two checkpoint chains that reach one hash are equal up to there, positions included, or the hash collides |
| `Anchoring.AnchorsIncrease` | internal/audit/checkpoint_mgr.go:108-171 | anchors of an honest chain strictly increase |
| `Anchoring.AnchorPinsRecords` | internal/audit/verifier.go:129-166 | a matching anchor fixes all records up to it |
| `Anchoring.LatestAnchorSuffices` | internal/audit/verifier.go:81-178 | if a nonempty log verifies and the last checkpoint hash is the honest j-th, the checkpoints are exactly the honest ones up to j, the log starts with the honest records up to that anchor and every earlier checkpoint anchors a matching record, though none was compared |
| `Anchoring.ListsPinned` | internal/audit/verifier.go:81-178 | the same about the record and checkpoint lists themselves |
| `Anchoring.OnlyTotalTruncationIsMissed` | internal/audit/verifier.go:129-166 | a log cut below the latest honest anchor is reported clean exactly when it was cut to nothing |
| `Runs.OpenKeeps` | internal/audit/writer.go:105-124 | an open keeps the invariant, all records and the checkpoint file, and succeeds exactly when the checkpoint file can be read |
| `Runs.CheckpointKeeps` | internal/audit/checkpoint_mgr.go:121-171 | a checkpoint written to a newline-terminated file keeps the invariant, leaves the log alone, adds just that checkpoint and moves the anchor to the head |
| `Runs.AppendKeeps` | internal/audit/writer.go:370-434 | an append adds exactly the stamped record, keeps the invariant and leaves head minus anchor below the cadence |
| `Runs.CloseKeeps` | internal/audit/writer.go:452-481 | a close leaves the log and puts the last anchor at the head |
| `Runs.CrashKeeps` | internal/audit/writer.go:239-353 | a crash at any byte of an append to a newline-terminated log keeps the invariant and all earlier records, and the new one exactly when its whole text arrived, newline or not |
| `Runs.CheckpointCrash` | internal/audit/checkpoint_mgr.go:121-171 | a crash at any byte of a checkpoint write keeps the log, and the checkpoint file stays readable exactly when no byte or the whole text arrived |
| `Runs.CheckpointCrashKeeps` | internal/audit/writer.go:427-431 | so does a crash inside the checkpoint an append brings, whose record is kept |
| `Runs.CloseCrashKeeps` | internal/audit/writer.go:452-481 | and a crash inside the final checkpoint of a close |
| `Runs.StepKeeps` | internal/audit/writer.go:105-481 | every step that finds the files it writes newline-terminated, crashes at any byte included, keeps the invariant, never removes a record and adds exactly those counted |
| `Runs.RunKeeps` | internal/audit/writer.go:105-481 | so does every history of such steps from empty files |
| `Carrying.RunCarries` | internal/audit/writer.go:360-434 | after every run the k-th record of the log carries every field of the k-th content that arrived |
| `Runs.HonestRunVerifies` | internal/audit/verifier.go:34-181 | after every history of opens, appends, closes and crashes at any byte, with one key and each write finding its file newline-terminated: there is a report exactly when the checkpoint file is readable, and as soon as it holds a checkpoint no issue is reported, the head is the number of records that arrived and the anchor at most the head |
| `Runs.DiskVerifies` | internal/audit/verifier.go:34-181 | the invariant on the two files alone already makes them verify |
| `Runs.RunIsPinned` | internal/audit/verifier.go:81-178 | whatever verifies later and ends in the hash of a run's j-th checkpoint has the run's checkpoints up to j and starts with the run's records up to that anchor, or the hash collides |
| `Runs.RunHonest` | internal/audit/verifier.go:81-178 | every run leaves a chain, and checkpoints that anchor its records |
| `Cadence.AnchorsAreMultiples` | internal/audit/checkpoint_mgr.go:108-171 | with cadence c, n appends on empty files anchor exactly c, 2c, up to the largest multiple within n |
| `Cadence.DefaultAnchorsAll` | internal/audit/writer.go:105-112 | without a cadence of its own a writer anchors every record |
| `Cadence.NoAnchoredRecordIsLost` | internal/audit/writer.go:411-431 | at every point of every history in which each write finds its file newline-terminated, also right after a crash at any byte, each stored checkpoint anchors a record that recovery keeps, and anchors increase; exactly when a step loses one is said by AnchorStepExact |
| `AnchorLoss.AnchorStepExact` | internal/audit/writer.go:405-431 | an append, or a crash at any byte of one, leaves every stored checkpoint with its record exactly when it finds the log newline-terminated, or the head is not anchored yet and the step brings no checkpoint; as long as the checkpoint file can be read it holds just these checkpoints |
| `AnchorLoss.PartWritten` | internal/audit/checkpoint_mgr.go:75-171 | behind any part of a checkpoint's text the file can be read exactly when no byte was written, or the whole text behind a newline-terminated file, and then holds the checkpoint exactly in the second case |
| `Cadence.AnchoredRecordLost` | internal/audit/writer.go:411-431 | the run that breaks it otherwise: a crash just before the newline, an open, a close that anchors the record, an open and one append, after which the anchored record is gone |
| `Cadence.UnendedAppendLoses` | internal/audit/writer.go:405-416 | an append to a log without its last newline loses the last record for good, whatever is written later |
| `Cadence.LogStepExact` | internal/audit/writer.go:405-416 | a step that writes to the log keeps all its records exactly when the log ends with a newline |
| `Cadence.TornCheckpointBlocksOpen` | internal/audit/checkpoint_mgr.go:75-104 | after a crash inside a checkpoint write the next open succeeds exactly when none or all bytes of its text arrived |
| `Cadence.UnendedCheckpointBlocksOpen` | internal/audit/checkpoint_mgr.go:75-171 | if all but the newline arrived, the checkpoint written after that open blocks every later one, whatever is appended |
| `Cadence.DueCheckpoint` | internal/audit/writer.go:427-431 | an append that makes a checkpoint due adds exactly the checkpoint of the new head |
| `Writer.CheckpointManager.Replay` | internal/audit/checkpoint_mgr.go:75-104 | the manager's fields become those of the last checkpoint, or the file is refused |
| `Writer.CheckpointManager.CreateCheckpoint` | internal/audit/checkpoint_mgr.go:121-171 | succeeds exactly when the head is not behind the anchor and the write completes; the fields move only then, the file gets what the write reached |
| `Writer.AuditWriter.Replay` | internal/audit/writer.go:149-237 | the cached head moves to the last record exactly when the whole file is a faultless nonempty chain |
| `Writer.AuditWriter.FindBreak` | internal/audit/writer.go:239-327 | the rescan loop finds the cut the recovery theorems are about |
| `Writer.AuditWriter.RecoverFromCorruption` | internal/audit/writer.go:239-353 | file, head and success are those of the recoverable open |
| `Writer.AuditWriter.Append` | internal/audit/writer.go:370-434 | the file gains what the write reached of the stamped line and the head moves only after a complete write; a due checkpoint puts what its own write reached into the checkpoint file, and the manager moves and success is reported only if that completed; without failures the step is that of the state machine |
| `Writer.AuditWriter.Close` | internal/audit/writer.go:452-481 | the log stays, the checkpoint file gains what the write reached of one final checkpoint exactly when one is due, as in the state machine when it completes; nothing is usable afterwards |
| `Writer.NewAuditWriter` | internal/audit/writer.go:43-63 | opens exactly the faultless files, at their head, changing nothing |
| `Writer.NewAuditWriterRecoverable` | internal/audit/writer.go:73-100 | opens at the recovered head with the recovered bytes |
| `Writer.NewAuditWriterWithCheckpoints` | internal/audit/writer.go:105-124 | recovers the log, replays the checkpoints and starts in the state machine's opened state; the checkpoint file is not changed |
| `Index.SQLiteIndexer.Rebuild` | internal/audit/sqlite_index.go:60-107 | unless a statement fails the table becomes that of the valid prefix of the file and success means a faultless file; if one fails the old table stays |
| `Index.FillTable` | internal/audit/sqlite_index.go:70-102 | the transaction commits exactly when the clearing, each insert and the commit succeed; no insert meets an existing key, and the table is that of the records |
| `Index.SQLiteIndexer.RecordCount` | internal/audit/sqlite_index.go:122-126 | the number of rows |
| `Index.SQLiteIndexer.QueryBySeq` | internal/audit/sqlite_index.go:129-161 | the stored record under that number, or nothing |
| `Index.SQLiteIndexer.QueryByEventType` | internal/audit/sqlite_index.go:165-188 | the log-order filter by type, cut to the limit, without payload fields |
| `Index.RowReadBack` | internal/audit/sqlite_index.go:86-161 | a stored record is read back with payload and hosted context |
| `Index.RecordNumbers` | internal/audit/sqlite_index.go:86-100 | records of any file are numbered 1, 2, 3 and so on, so keys never collide |
| `Index.IndexAgreesWithLog` | internal/audit/sqlite_index.go:60-161 | after a rebuild from any file, number k is found exactly when the valid prefix is that long, and gives its k-th record |
| `Index.OfTypeMeans` | internal/audit/sqlite_index.go:165-188 | a query by type finds every record of the type and no other, by rising number, without payload |
| `Index.QueryMeans` | internal/audit/sqlite_index.go:165-188 | with a limit: never more than a positive limit, and a record is left out only when records of smaller numbers fill it |
| `Octets.ToFromInt` | internal/bundle/writer.go:405-412 | decoding a fixed-width encoding gives the number back |
| `Octets.IntBytes` | internal/bundle/writer.go:405-412 | copying the minimal bytes behind zeros is the fixed-width encoding, for every value that fits |
| `Derivation.BigEndian` | internal/bundle/writer.go:405-412 | octets are read with the most significant first |
| `Modular.Inverse` | internal/bundle/writer.go:442-442 | the modular inverse exists below every prime modulus and multiplies to 1 |
| `Signing.NonceRecovered` | internal/bundle/writer.go:442-447 | z/s + (r/s)d is the nonce, modulo a prime |
| `Signing.SignatureVerifies` | internal/bundle/writer.go:439-449 | for every key, hash and nonce with nonzero r and s the verification equation of section 6.4.2 of FIPS 186-5 holds, in any cyclic group of prime order |
| `Signing.AdditiveLaws` | internal/bundle/writer.go:404-456 | the laws asked of the curve group are met by some group over every prime order of the right size, so the theorems about signatures are not empty |
| `Signing.OneSubtraction` | internal/bundle/writer.go:413-419 | subtracting the modulus at most once is reduction modulo it, for values below twice the modulus |
| `Signing.ReduceHash` | internal/bundle/writer.go:413-419 | the message number is the 32-byte hash modulo the group order |
| `Signing.FirstSuitable` | internal/bundle/writer.go:430-455 | the chosen candidate is suitable and none before it is |
| `Signing.FirstSuitableUnique` | internal/bundle/writer.go:430-455 | which candidate is chosen does not depend on which suitable one is known to exist |
| `Signing.Instantiate` | internal/bundle/writer.go:420-429 | the four HMAC updates give the seeded state of steps b to g of section 3.2 of RFC 6979 |
| `Derivation.SeedMessages` | internal/bundle/writer.go:420-429 | the two seeding messages octet by octet: the value, 0 and then 1, the private key and the reduced hash, under keys renewed in between |
| `Derivation.NextMessages` | internal/bundle/writer.go:430-455 | each candidate is the next value as a number, and behind a rejected one the key is renewed over that value and an octet 0 |
| `Derivation.HalvesAre` | internal/bundle/writer.go:436-447 | r is the x-coordinate of the nonce's point and s times the nonce is z + r d, modulo the order |
| `Signing.Block` | internal/bundle/writer.go:431-435 | one HMAC block fills a candidate |
| `Signing.TryNonce` | internal/bundle/writer.go:436-452 | a candidate is taken exactly when it is in range with nonzero r and s |
| `Signing.Sign` | internal/bundle/writer.go:404-456 | r and s are in range, verify under the key, and come from the first suitable candidate of the specified stream |
| `Paths.CleanStaysBelow` | internal/bundle/reader.go:280-280 | cleaning components without ".." never climbs above the start |
| `Paths.CleanLeavesProper` | internal/bundle/reader.go:280-280 | cleaning a rooted path leaves only proper components |
| `Paths.CleanSteps` | internal/bundle/reader.go:280-280 | it drops empty components and dots, and lets ".." undo the one before it |
| `Bundle.ValidateEntryPath` | internal/bundle/reader.go:326-367 | accepts exactly nonempty relative names without ".." components and control characters under the allowed names |
| `Bundle.CheckEntry` | internal/bundle/reader.go:68-173 | names the first applicable fault of an entry; the running 64-bit total equals the true sum and does not overflow |
| `Bundle.FaultStep` | internal/bundle/reader.go:59-174 | an entry without fault is exactly one that keeps the archive acceptable: at most 10,000 entries, distinct names, every cap kept |
| `Refusals.AcceptedEntries` | internal/bundle/reader.go:59-174 | what an entry of an acceptable archive is, with kinds, names and caps written out: no links, devices or pipes, at most 256 MiB, metadata regular and at most 10 MiB |
| `Refusals.EntriesAccepted` | internal/bundle/reader.go:59-174 | and conversely |
| `Refusals.UnsafeKindRefused` | internal/bundle/reader.go:85-95 | links, devices and pipes are refused as such and nothing else is |
| `Refusals.CapsRefused` | internal/bundle/reader.go:97-109 | which cap is named for which sizes |
| `Refusals.ContentRefused` | internal/bundle/reader.go:111-173 | irregular metadata, misplaced entries and bodies cut short, exactly |
| `Refusals.NamesRefused` | internal/bundle/reader.go:68-83 | too many entries, bad names and duplicates, in this order |
| `Refusals.DotDotRefused` | internal/bundle/reader.go:326-367 | ".." between slashes makes any name unusable |
| `Refusals.ProperNamesValid` | internal/bundle/reader.go:326-367 | every name below an allowed directory without such a component or control character is usable |
| `Refusals.ValidNames` | internal/bundle/reader.go:326-367 | a usable name is relative, free of control characters and allowed |
| `Refusals.ListedAs` | internal/bundle/reader.go:143-166 | an entry is listed under the part its name begins with |
| `Bundle.AddEntry` | internal/bundle/reader.go:111-166 | filing an entry gives the contents of the longer archive |
| `Bundle.Open` | internal/bundle/reader.go:59-208 | succeeds exactly on acceptable archives with a manifest whose manifest and lock parse, never with a link, device or pipe in them, and then returns their contents; otherwise names the fault of the first bad entry, or what is wrong with manifest and then lock |
| `BundleWriting.WriteBundleTar` | internal/bundle/writer.go:235-358 | fails exactly when some file on disk cannot be read; otherwise the archive holds the entry of every input file exactly once, in name order |
| `BundleWriting.AddTree` | internal/bundle/writer.go:261-298 | the directory entry, when one is due, and the entry of each listed file |
| `BundleRoundTrip.MetadataWritten` | internal/bundle/writer.go:250-257 | the four metadata entries, written out |
| `BundleRoundTrip.FilesWritten` | internal/bundle/writer.go:258-298 | the entry of every listed file, written out, with its bytes and mode |
| `BundleRoundTrip.DirectoriesWritten` | internal/bundle/writer.go:258-298 | the directory entries, written out, and the number of all entries |
| `BundleRoundTrip.OrderIrrelevant` | internal/bundle/writer.go:235-303 | inputs listing the same files in any order give the same archive |
| `BundleRoundTrip.WrittenDistinct` | internal/bundle/writer.go:250-298 | no two entries of a written archive share a name |
| `BundleRoundTrip.WrittenReadable` | internal/bundle/reader.go:59-174 | for distinct clean paths, what is written is acceptable to the reader exactly when there are no extra files, no control characters and every cap is kept |
| `BundleRoundTrip.WrittenReadBack` | internal/bundle/reader.go:111-208 | manifest, lock, policy and SBOM come back byte for byte, and the listed source and image entries are exactly the written ones |
| `BundleRoundTrip.ExtrasRefused` | internal/bundle/reader.go:160-166 | the directory entry written for extra files is one the reader refuses |
| `Extraction.UnpackListed` | internal/bundle/reader.go:255-307 | the loop unpacks exactly the entries listed at opening, up to the first error |
| `Extraction.ExtractionContained` | internal/bundle/reader.go:255-307 | unpacking an archive of valid names creates files strictly below the fresh directory only, and every file outside keeps its contents |
| `Extraction.ExtractionExact` | internal/bundle/reader.go:255-307 | packing, opening and unpacking gives back exactly the packed files of a part, each at its path with its bytes and permission bits |
| `Moving.MoveEntries` | internal/bundle/reader.go:314-320 | the loop renames in order up to the first failure |
| `Moving.MovesExact` | internal/bundle/reader.go:309-320 | the renames move exactly the leading names that nothing blocks, judged on the disk before the first: a directory in the destination blocks any name, a file only a directory |
| `Moving.ExtractionDelivers` | internal/bundle/reader.go:231-323 | packing, opening and extracting puts every packed file of a part at its path below the destination with its bytes and permission bits exactly when nothing blocks a top name; otherwise each has arrived or its path is as it was; nothing else changes and the fresh directory is gone |
| `Framing.Reader.DiscardLeadingWS` | cmd/agentpaas-mcp/main.go:111-126 | exactly the leading blanks are consumed |
| `Framing.Reader.ReadString` | cmd/agentpaas-mcp/main.go:166-169 | one line up to its newline, or everything at the end of the input |
| `Framing.Reader.ReadLSP` | cmd/agentpaas-mcp/main.go:163-195 | outcome and unread rest are those the framing theorems are about |
| `Framing.ServeLSP` | cmd/agentpaas-mcp/main.go:145-161 | the handled bodies and the ending are those of the whole input, or of its part up to the first body whose dispatch fails |
| `Dispatch.HandedOver` | cmd/agentpaas-mcp/main.go:145-161 | a framed body with a printable character is handed over as it is, one of white space never |
| `Dispatch.ObjectsShow` | cmd/agentpaas-mcp/main.go:145-207 | a conversation of JSON objects is handed over whole |
| `Dispatch.WideWhiteIsBlank` | cmd/agentpaas-mcp/main.go:154-156 | which runes beyond ASCII count as white space |
| `Dispatch.LimitIs` | cmd/agentpaas-mcp/main.go:183-186 | the largest body read is 1 MiB |
| `Dispatch.LengthHeaders` | cmd/agentpaas-mcp/main.go:174-188 | a length header in any case, with white space around name and number, fixes the length |
| `Dispatch.PlusHeader` | cmd/agentpaas-mcp/main.go:183-186 | a plus sign in front of the number is allowed |
| `Dispatch.BadHeaders` | cmd/agentpaas-mcp/main.go:183-186 | a negative length or no number is an error |
| `Dispatch.OtherHeaders` | cmd/agentpaas-mcp/main.go:174-182 | any other name says nothing about the length |
| `Dispatch.LeadingBlanks` | cmd/agentpaas-mcp/main.go:111-126 | in front of the first frame exactly tabs, newlines, carriage returns and blanks are skipped |
| `Framing.LastLengthWins` | cmd/agentpaas-mcp/main.go:164-191 | of several length headers the last one counts |
| `Framing.HeaderBlock` | cmd/agentpaas-mcp/main.go:164-191 | a block of header lines without malformed length only fixes the length in force |
| `Framing.BlockAndPayload` | cmd/agentpaas-mcp/main.go:163-195 | any header block without malformed length, then a payload: the length in force alone decides the outcome |
| `Framing.BadBlock` | cmd/agentpaas-mcp/main.go:183-186 | the first malformed length ends the read right behind its line |
| `Framing.FrameReadBack` | cmd/agentpaas-mcp/main.go:163-207 | a written frame reads back as its body and leaves what follows, exactly for bodies of at most 1 MiB |
| `Framing.FrameBetween` | cmd/agentpaas-mcp/main.go:163-195 | headers with other names, before or after the length, never change the result |
| `Framing.FramesServed` | cmd/agentpaas-mcp/main.go:145-207 | frames in front of any input are handed over in order, byte for byte, blank bodies dropped |
| `Framing.ConversationServed` | cmd/agentpaas-mcp/main.go:145-207 | a sequence of written frames is read as exactly that sequence, with nothing left and no error |
| `Framing.BlanksBefore` | cmd/agentpaas-mcp/main.go:90-126 | blanks in front of a conversation do not hide it and its first byte selects this framing |
| `Framing.TornFrame` | cmd/agentpaas-mcp/main.go:163-195 | a frame cut anywhere yields no message, and an error exactly when part of the body arrived |
| `Framing.BrokenConnection` | cmd/agentpaas-mcp/main.go:145-195 | a connection that breaks inside a frame delivers exactly the frames before it and ends in an error exactly when part of the body had arrived |
| `ReplayGuard.ConfirmationState.CheckAndAddConfirmation` | integrations/hermes-plugin/tools.py:51-66 | replay and refusal verdicts, the new store, and its bound |
| `ReplayGuard.VerdictsAre` | integrations/hermes-plugin/tools.py:51-66 | for every state: empty ids and used ones are refused and change nothing, any other is stored, the oldest of 10,000 going first |
| `ReplayGuard.StoreIsWindow` | integrations/hermes-plugin/tools.py:51-66 | in every history of calls the store is the last 10,000 ids accepted since the last reset |
| `ReplayGuard.ReuseIsFarApart` | integrations/hermes-plugin/tools.py:51-66 | two acceptances of one id are more than 10,000 acceptances apart |
| `ReplayGuard.ManyOthersBetween` | integrations/hermes-plugin/tools.py:51-66 | and the 10,000 ids after the first are pairwise different and different from it |
| `ReplayGuard.ReplayWindow` | integrations/hermes-plugin/tools.py:51-66 | a used id is recognised exactly while fewer than 10,000 ids have been accepted after it |
| `ReplayGuard.FreshIsNoReplay` | integrations/hermes-plugin/tools.py:51-66 | an id not accepted since the last reset is never taken for a replay |
| `ReplayGuard.SessionRuns` | integrations/hermes-plugin/tools.py:35-49 | a run belongs to the session exactly when some registration of it was followed by no discard and no reset |
| `ReplayGuard.NoEmptyRun` | integrations/hermes-plugin/tools.py:35-39 | in no history is the empty run id registered |
| `SeatFlag.OneMatch` | internal/cli/cloud_seat_wait.go:499-512 | the pattern matches once exactly when the text has one flag line |
| `SeatFlag.FlagReads` | internal/cli/cloud_seat_wait.go:499-512 | the flag line written out, between any other lines, reads as its digit |
| `SeatFlag.FlagWithMore` | internal/cli/cloud_seat_wait.go:499-512 | with other text behind it on its line it is no flag |
| `SeatFlag.NoFlag` | internal/cli/cloud_seat_wait.go:499-512 | a text with a zero byte or two flag lines has no flag |
| `SeatFlag.SetSucceeds` | internal/cli/cloud_seat_wait.go:514-533 | setting succeeds exactly for "0" and "1" on texts whose flag can be read |
| `SeatFlag.LensLaws` | internal/cli/cloud_seat_wait.go:499-533 | what was set is read, setting the present value changes nothing, the last write wins |
| `SeatFlag.OneByteChanges` | internal/cli/cloud_seat_wait.go:514-533 | only the digit of the one flag line can change, and that line stays the only one |
| `SeatWait.ReadLockedFlag` | internal/cli/cloud_seat_wait.go:434-454 | succeeds exactly when every file has one flag and all agree |
| `SeatWait.WriteLockedFlag` | internal/cli/cloud_seat_wait.go:456-477 | files are rewritten in order up to the first error |
| `SeatWait.Prove` | internal/cli/cloud_seat_wait.go:193-252 | the files end as the deferred restore leaves them, success is reported exactly when all steps and the restore succeed |
| `SeatWait.Armed` | internal/cli/cloud_seat_wait.go:205-250 | whatever happens between setting the flag and the deferred restore, files and verdict are those of the attempt |
| `SeatRestore.FlipFromMeans` | internal/cli/cloud_seat_wait.go:456-477 | a rewrite of all files either set them all or stopped at one, with those before set and those after untouched |
| `SeatRestore.RestoreExact` | internal/cli/cloud_seat_wait.go:193-252 | on every exit after the flag was set, if the restore succeeds, every file is its original with the flag off exactly unless the middle rewrite was cut short inside a file |
| `SeatRestore.SuccessRestores` | internal/cli/cloud_seat_wait.go:193-252 | a reported success always leaves every file at its original with the flag off |
| `SeatRestore.SuccessExactly` | internal/cli/cloud_seat_wait.go:193-252 | the attempt succeeds exactly when every file had one and the same flag and every read, write, fixture and the comparison went well |
| `SeatRestore.FlipsExactly` | internal/cli/cloud_seat_wait.go:456-477 | files that have a flag are rewritten to the end exactly when no operation on them fails |
| `SeatRestore.StoppedFile` | internal/cli/cloud_seat_wait.go:486-497 | a rewrite that fails leaves the old text, the new text, nothing after a failed seek, or exactly the bytes a short write wrote |
| `SeatRestore.HalfSetExact` | internal/cli/cloud_seat_wait.go:197-204 | if setting the flag stops at a file, no restore follows, the files before it read 1, and all files are unchanged exactly when the failed rewrite left its file as it was and the files before it, if any, stood at 1 already |
| `SeatRestore.HalfSetStays` | internal/cli/cloud_seat_wait.go:197-204 | two files at 0, the second of which cannot be read, are left at 1 and 0 |
| `SeatRestore.CutLosesTail` | internal/cli/cloud_seat_wait.go:213-215 | a file whose flag line is followed by a comment loses the comment while the restore succeeds |

## Left out

- JSON: the nesting limit of 10,000, marshalling errors of Go values that are no JSON, and the float64 conversion itself (a parameter with the law that its output is a number text).
- Audit numbers: wrap-around of the 64-bit sequence number after 2^63 records.
- Checkpoint keys, key files and passphrases; the base64 text and the random part of a checkpoint signature are given by an abstract sign and verify pair.
- Export bundles of the audit log, `WriteCheckpointJSONL` and file permissions; locks are atomic steps, the SQL engine is a map.
- Signing.Sign: that the nonce loop ends rests on the outputs of HMAC; a suitable candidate is assumed to exist. Hashes have 32 bytes, as the only caller gives. DER encoding and curve arithmetic are not modelled.
- The manifest's canonical JSON, its digests and the gzip layer; tar headers, name length limits of the USTAR format, and streams that break between entries.
- Moving.ExtractionDelivers: creating, seeking and decompressing always succeed; a rename fails where the disk or the given failures say so, which covers a destination on another file system. An unpacking error leaves the disk as it was, since all it wrote goes with the fresh directory.
- Framing.ServeLSP: what the dispatcher does and answers; it fails on the bodies given. The newline-delimited mode of the adapter.
- The rest of the command line program and of the Hermes plugin; threads are interleavings of whole calls under the lock.
- SeatWait.Prove: validation of the worker directory, locking and unlocking, and the two fixture runs, which succeed or fail as given and leave the files alone.
