# Verification of the Rasputin contract modules

Dafny models of five components, each a stateful or branching implementation
that has to agree with a simple specification, and proofs that it does.

* **Backup ingest** (`backupxfer`). The endpoint is a state machine: one open
  generation, the `landed` and `inflight` maps, an upload semaphore, a target
  file system, and any number of upload handlers interleaving with `Open`,
  `Close` and a non-atomic `Abandon`. `Ingest` takes each mutex region, and each
  file-system call of a handler, as one atomic step; `Endpoint` holds the mutex
  regions as a class whose methods are proved to take exactly those steps;
  `IngestSafety` proves the invariant step by step, `IngestRuns` the theorems over
  whole runs, `IngestReach` that runs from a fresh endpoint get to landed uploads,
  `IngestEnds` how generations and uploads end, `IngestReceipts` where receipts come
  from, `IngestLimits` what happens without the hypothesis on `Open`, and `IngestBodies`
  joins the machine to the code that takes a body in. Around it: the signed
  credential (`Credential`, `Codecs`), the bounded body and the header scan
  (`Intake`), the chunked seal and its independent reader (`Seal`, `Unseal`), the
  upload from end to end (`Upload`), and the tar unpacker (`Unpack`, with `UnpackNames`
  for the names it reads).
* **Secret search** (`secret`). `SecretWalk`: a depth-first search over types with
  a shared seen set and memo tables, and a walk over a possibly cyclic heap, equal
  to plain reachability.
* **Seed file** (`proto/seed.go`). `Quoting`: the parser's unquoting and the
  renderer's quoting against a POSIX shell's reading of a word; `Grammar`: exactly
  which texts unquoting accepts. `Seed`, `SeedLines`, `SeedRoundTrip` and `SeedOrigin`:
  rendering a seed and reading it back. `Labels`: node ids and secret names.
* **Privilege and bundles** (`tileschema`). `Trust`, `Rating`, `Privilege`,
  `Derivation`, `GrantTable`, `Safety`: which host paths reach the platform's trust
  chain, what a stack's facts grant, and which tiles are accepted. `Bundle`: the strict
  and the tolerant reader. `SecretTokens`: the token scan.
* **Member paths** (`proto/backup.go`, `backupxfer/wire.go`). `Members`,
  `MemberNames`.

`Text`, `Runes`, `Paths`, `Sorting` and `Traces` hold what these share: byte strings as
the Go library treats them, white space as bytes and as runes, `path.Clean`, sorted map
keys, and runs of a transition system.

A Go string is a sequence of bytes, so a `string` holds one `char` per byte; only
the reduction of app and volume names (`Members.Segment`) reads one `char` as one
rune. Integers are unbounded except where the width matters, which is then written
out: `SealedSizeBound`, the chunk counter, the reported sizes and the running total
of `Unpack` wrap at 64 bits.

Cryptography, encodings and hashes are parameters. The AEAD is ideal
(ChaCha20-Poly1305, section 2.8 of RFC 8439): it opens exactly what a seal emitted
under that key, nonce and additional data (`Unseal.Ideal`; `Unseal.IdealExistsIff` says
for which sets of seals such a scheme exists). A MAC checks out only on what was minted
(`Credential.Unforged`). Base64 and JSON are functions with a left inverse
(`Credential.Lawful`, which `Codecs.LawfulExists` shows can be met), SHA-256 is any
function. Clocks, nonces, request headers and
the way a stream is cut into reads are inputs, chosen freely.

## What the proofs found

* A generation opened while a handler of the previous one is still running makes
  the endpoint vouch for a member the new generation does not have, because `Open`
  replaces the two maps and the handler still writes through the fields: from every
  fresh endpoint some run gets there (`IngestLimits.PollutesFromStart`). A directory
  reopened while `Abandon` is still removing it can lose a landed member
  (`IngestLimits.ReopenDuringRemovalLoses`). Everything that can follow an `Open` stays
  true if and only if it found neither (`IngestLimits.OpenSafeIff`), and the caller
  can see both before the call.
* The pre-body gate is exact if and only if bounding twice stays inside 64 bits
  (`Credential.GateExactIff`), which holds for every size below 2^63.
* A body whose header line ends exactly at the credential's bound, and any body under
  a bound of zero, is refused as too large although it is within the bound
  (`Intake.LandedIff`); an archive minted with `SealedSizeBound` is never there.
* BackupValidMemberPath is documented as the paths BackupMemberPath could have produced.
  It accepts more: a member path is one of those if and only if neither name has a pair
  of dots (`MemberNames.ProducedIff`).
* The independent reader of the sealed format slices out of range, instead of refusing,
  exactly when the header's chunk size is below -16 or within sixteen of 2^63
  (`Unseal.CrashesIff`).
* The nonces of one seal are distinct if and only if it has at most 2^64 + 1 chunks
  (`Seal.NoncesDistinctIff`).
* A refused host path is rated host-trusting if and only if, trimmed and cleaned, it is
  neither `/var/lib` nor inside the app data (`Rating.RefusedRatedIff`). The refusal looks
  at the path as given and the rating at the path trimmed, so trailing white space
  separates the two (`Rating.TrailingSpace`); without it exactly `/var/lib` is rated lower
  (`Rating.RefusedRated`).
* An unquoted seed value means to a shell what it means to the parser if and only if it
  has no blank, operator or expandable tilde (`Quoting.UnquotedAgreesIff`).
* A seed whose origin spans lines comes back if and only if its later lines are well
  formed and set only keys the seed writes after them, or leaves out where they set
  an empty value (`SeedOrigin.RoundTripIff`); one that sets another key fails it
  (`SeedOrigin.OriginLineIsRead`).

## Model

| member | source | states |
|---|---|---|
| IngestSafety.StepKeepsInv | backupxfer/server.go:163-263 | every step of the endpoint, of any handler or of a removal, keeps the invariant: slots and registrations accounted for, one generation, file names and data consistent, handlers' knowledge valid, receipts truthful |
| IngestSafety.ActionStep | backupxfer/server.go:402-447 | one action of one handler keeps the whole invariant whatever the other handlers are doing |
| IngestSafety.ActionKeepsMembers | backupxfer/server.go:484-501 | no action of a handler changes a member entry already on the target or the bytes behind it |
| IngestSafety.OpenStep | backupxfer/server.go:166-203 | opening a generation on a quiet endpoint keeps the invariant |
| IngestSafety.RegisterStep | backupxfer/server.go:388-401 | registering an admissible upload keeps one handler per member |
| IngestSafety.RemoveFileStep | backupxfer/server.go:238-248 | removing one file of an abandoned directory keeps the invariant |
| IngestRuns.RunInv | backupxfer/server.go:163-263 | the invariant holds in every state of every run in which Open finds the endpoint quiet |
| IngestRuns.ContinuationInv | backupxfer/server.go:163-263 | and in every such continuation of a state where it holds |
| IngestRuns.LandedIsTruthful | backupxfer/server.go:255-263 | every receipt Landed returns names a file of the open generation with exactly that length and hash |
| IngestRuns.MembersImmutable | backupxfer/server.go:478-555 | a member file once visible keeps its name, its file and every byte until its generation is abandoned |
| IngestRuns.SlotsAndRegistrationsConserved | backupxfer/server.go:395-416 | slots taken equal the handlers between acquire and release and never exceed the semaphore; inflight equals the members of live handlers; at most one of gen and last is set |
| IngestRuns.NoTempLeftBehind | backupxfer/server.go:484-501 | in every run every temporary file belongs to a live upload, or is the very file that was under that name before the endpoint started |
| IngestRuns.VisibleByRename | backupxfer/server.go:551-554 | a member entry comes to name a file only by the rename of a handler writing that member, from its temporary name |
| IngestRuns.DirectoryOpenedEarlier | backupxfer/server.go:458-477 | the directory a handler works in is its generation's, as it found it |
| IngestRuns.HandlerTracesToMint | backupxfer/server.go:319-406 | every registered handler rests on an earlier mint of its very grant, its presentation in time by its own node, and a registration while its generation and run were open |
| IngestRuns.LandedTracesToMint | backupxfer/server.go:319-447 | every member file that was not there at the start traces back through a rename in its generation's directory to a mint for exactly that generation, member, node and run |
| IngestRuns.AuthorizeTracesToMint | backupxfer/server.go:329-375 | in every run every authorised request goes back to a mint for uploading, of the generation and member its path names and the node that presents it |
| IngestRuns.RestoreRefused | backupxfer/server.go:351-358 | the token of a grant minted for restoring never authorises a request, in any state and at any time |
| IngestReceipts.ReceiptTracesToMint | backupxfer/server.go:439-441 | in every run, whatever receipt the endpoint holds was made by a rename, for exactly the bytes written, and names the node and the credential of a mint for that member |
| IngestReceipts.RenameAfterRecheck | backupxfer/server.go:542-554 | in every run, however generations are opened, a rename follows a second look that found no member of that name |
| IngestReceipts.TakenOnce | backupxfer/server.go:395-399 | a member with a receipt is not registered again until another Open |
| IngestEnds.AbandonFindsIt | backupxfer/server.go:222-249 | from every state with a generation open, with any steps between that are neither an Open nor its Abandon, Abandon finds it, puts its directory under removal and forgets it |
| IngestEnds.CloseThenAbandon | backupxfer/server.go:207-249 | in particular after its Close, when only the memory of the last generation leads to it |
| IngestEnds.OthersUntouched | backupxfer/server.go:205-237 | closing or abandoning any other id changes nothing |
| IngestEnds.StaysClosed | backupxfer/server.go:205-263 | after Close or Abandon, until it is opened again, a generation admits no upload and has no receipts |
| IngestEnds.NoOrphans | backupxfer/server.go:238-248 | in every run no file stands in a directory that is gone |
| IngestEnds.RemovalCanFinish | backupxfer/server.go:238-248 | a removal can always go on until the directory and everything in it is gone, and nothing else has changed |
| IngestEnds.HandlerCanLeave | backupxfer/server.go:402-447 | wherever an upload stands it can leave by its own steps, and its registration goes with it |
| IngestReach.ReachWaiting | backupxfer/server.go:319-401 | while its generation is open and its member free, every mintable upload grant whose token has at most 4096 bytes, presented in time, gets its handler registered |
| IngestReach.UploadCanLand | backupxfer/server.go:456-572 | a registered upload of an acceptable body can always go on to stand under its member's name with its receipt |
| IngestReach.LandsFromStart | backupxfer/server.go:128-447 | from every fresh endpoint every presentable request with every acceptable body has a run that lands it, so the theorems are not about runs that cannot happen |
| IngestLimits.OpenSafeIff | backupxfer/server.go:166-203 | every state that can follow an Open answers Landed truthfully and has the live handlers' registrations, if and only if the Open found no registered handler and no removal of its directory |
| IngestLimits.LeftoverHandlerPollutes | backupxfer/server.go:439-441 | a run with a renamed leftover handler can open another generation and then has Landed name a member that is not there |
| IngestLimits.OpenOverLeftoverHandler | backupxfer/server.go:200-201 | wherever a run has got to, a presentable and admissible request lets it go on until the old generation's receipt is vouched for under the new one |
| IngestLimits.PollutesFromStart | backupxfer/server.go:200-201 | from every fresh endpoint, with every presentable request and every other generation, some run gets there |
| IngestLimits.RemovalLoses | backupxfer/server.go:238-248 | with the generation open over its own removal, an upload lands and is taken away under its receipt |
| IngestLimits.ReopenDuringRemovalLoses | backupxfer/server.go:222-248 | from every fresh endpoint: open, abandon, open again, land, and the removal going on loses the landed member |
| IngestBodies.SettlesIff | backupxfer/server.go:508-541 | whatever else goes on, a handler can settle on a body with a trailer if and only if the code that takes the body in would commit it |
| Endpoint.Endpoint.constructor | backupxfer/server.go:128-143 | a fresh endpoint is a start state of the machine, with a non-positive concurrency meaning one |
| Endpoint.Endpoint.Open | backupxfer/server.go:166-203 | succeeds exactly on an absolute clean directory, a valid id and a named run while nothing is open, and is then the machine's Open step |
| Endpoint.Endpoint.Close | backupxfer/server.go:207-214 | is the machine's Close step, which keeps the invariant; what it keeps for Abandon is IngestEnds.CloseThenAbandon |
| Endpoint.Endpoint.Abandon | backupxfer/server.go:222-237 | is the machine's Abandon step, and yields the generation whose directory is being removed |
| Endpoint.Endpoint.Landed | backupxfer/server.go:255-263 | answers only for the open generation, and under the invariant what it answers is true of the target |
| Endpoint.Endpoint.Mint | backupxfer/server.go:153-161 | mints only for the open generation and run, as the machine's Mint step |
| Endpoint.Endpoint.Register | backupxfer/server.go:388-401 | admits a member neither landed nor in flight, for the open generation and run; admitted or turned away, it is the machine's step |
| Endpoint.Endpoint.TryAcquire | backupxfer/server.go:411-415 | takes a slot exactly when the machine can, as its Acquire step |
| Endpoint.Endpoint.Record | backupxfer/server.go:439-441 | is the machine's Record step, into whichever map is there |
| Endpoint.Endpoint.Release | backupxfer/server.go:416 | is the machine's Release step |
| Endpoint.Endpoint.Unregister | backupxfer/server.go:402-406 | is the machine's Unregister step |
| Endpoint.Endpoint.Finish | backupxfer/server.go:402-447 | once land has returned, with a receipt or without, a quiet run of the machine gives back the slot and the registration and changes nothing else but the receipt |
| Ingest.PathOfInjective | backupxfer/server.go:478-489 | members and their temporary files are told apart by path |
| Credential.VerifyOfMint | backupxfer/token.go:147-227 | what Verify answers on a minted token at every clock reading: exactly the generation, member, node, run, bound and use that were asked for, with times and nonce filled in, from a minute before issue until expiry, if the token has at most 4096 bytes |
| Credential.MintableIff | backupxfer/token.go:147-165 | a grant is minted exactly when it has the shape Verify demands, for a life of more than nothing and at most fifty minutes |
| Credential.VerifiedAsAsked | backupxfer/token.go:147-227 | whatever Verify makes of a minted token is the grant the caller asked for, and for uploading exactly if that one was |
| Credential.VerifiedWasMinted | backupxfer/token.go:186-227 | whatever text is presented, a grant Verify returns was minted |
| Credential.VerifyInTime | backupxfer/token.go:214-226 | a returned grant has not expired, was not issued more than a minute ahead, and has every part the endpoint relies on |
| Credential.MintedIsUnforged | backupxfer/token.go:178-179 | the hypothesis on the MAC holds of minted tokens |
| Codecs.LawfulExists | backupxfer/token.go:174-179 | the laws asked of the codecs can be met, with any MAC |
| Credential.GateExactIff | backupxfer/token.go:234-237 | with 64-bit wrap-around, the gate admits exactly the declarations up to the staged size if and only if bounding twice fits 64 bits |
| Credential.GateExactForFiles | backupxfer/server.go:379-386 | for every staged size below 2^63 and every uint64 declaration the gate is exact, and a request that declares nothing passes |
| Intake.BoundedBody.Read | backupxfer/server.go:588-612 | one read delivers the next bytes within the bound, the end of the body, its failure, or over-bound |
| Intake.CopyAll | backupxfer/server.go:518-527 | over any fragmentation a bounded body delivers a body within the bound byte for byte then its end, and otherwise at most the bound and over-bound, never the end |
| Intake.ReadHeader | backupxfer/seal.go:350-382 | reads exactly the magic and one line of at most 4096 bytes holding a header this build can name, or reports that there is none, and consumes nothing further |
| Intake.HeaderEnd | backupxfer/seal.go:337-340 | the line ends after the magic and within what can be read |
| Intake.Receive | backupxfer/server.go:508-541 | the body's outcome is a function of its content, its bound and its trailer, whatever the fragmentation |
| Intake.LandedIff | backupxfer/server.go:508-541 | a body lands if and only if it is a whole archive within the bound, its header line ends before the bound, it did not fail, and the trailer has its digest and length |
| Seal.NonceInjective | backupxfer/seal.go:292-299 | nonces agree exactly when counters agree modulo 2^64 and flags agree |
| Seal.NonceReads | backupxfer/seal.go:292-301 | a nonce is the counter in eight big-endian bytes, the flag, and three zero bytes |
| Seal.NoncesDistinctIff | backupxfer/seal.go:284-301 | the nonces of one seal are pairwise distinct if and only if it has at most 2^64 + 1 chunks |
| Seal.BodyLength | backupxfer/seal.go:242-272 | floor(P / 64 Ki) + 1 chunks, each with its tag |
| Seal.ReadFull | backupxfer/seal.go:248-252 | over any fragmentation, a full chunk or all that is left |
| Seal.Write | backupxfer/seal.go:224-281 | for every fragmentation the archive is the same layout, and digest, size and plaintext count are those of the bytes; it fails exactly when the source or the destination does |
| Unseal.Open | backupxfer/sealtest/open.go:40-115 | the reader's loop is the recursive reading of the format |
| Unseal.EmitsAt | backupxfer/seal.go:284-301 | under chunk k's nonce a seal emits chunk k, with its flag, and nothing else |
| Unseal.OpenComplete | backupxfer/sealtest/open.go:76-115 | the chunks that are left open to the plaintext that is left, for every length |
| Unseal.OpenSound | backupxfer/sealtest/open.go:76-115 | only the chunks that are left, all of them and in order, open |
| Unseal.NothingAfterLast | backupxfer/sealtest/open.go:81-110 | after the flagged chunk nothing opens |
| Unseal.OpensExactlyWhatWasSealed | backupxfer/sealtest/open.go:36-115 | the reader accepts a file exactly when it is byte for byte one of the archives sealed, and returns that plaintext |
| Unseal.CrashesIff | backupxfer/sealtest/open.go:78-96 | the reader slices out of range exactly on a non-empty body under a known key whose header names a chunk size that sixteen more bytes make negative or overflow |
| Unseal.IdealExistsIff | backupxfer/seal.go:239-244 | the hypotheses on the AEAD can be met for a set of seals if and only if no two share a key or a header |
| Upload.TrailingBody.Read | backupxfer/client.go:216-225 | passes the stream through and fills the trailer exactly once, at its end |
| Upload.Transmit | backupxfer/client.go:166-182 | everything up to the end is sent, then the trailer |
| Upload.LayoutWithinBound | backupxfer/token.go:229-237 | an archive and its bound differ by exactly a tag and what the header line leaves of 4096 bytes |
| Upload.SealedUploadAcceptedIff | backupxfer/server.go:379-541 | with the bound computed from the plaintext's length the archive passes the gate, and its body is accepted if and only if the header line is within 4096 bytes |
| Upload.SealAndUpload | backupxfer/seal.go:405-446 | sealing and uploading lands exactly the archive, whatever way source, pipe and connection cut the bytes |
| Unpack.PathDescends | backupxfer/unpack.go:189-210 | an accepted entry name is a descent of single plain components |
| UnpackNames.DescentsRead | backupxfer/unpack.go:189-210 | every descent of plain components reads as itself, with or without a final slash |
| UnpackNames.OnlyDescentsRead | backupxfer/unpack.go:189-210 | and every other name is refused |
| Unpack.OpenBeneathMkdir | backupxfer/unpack.go:216-229 | creates exactly the missing ancestors, or fails exactly when a file stands in the way |
| Unpack.WriteEntry | backupxfer/unpack.go:234-259 | succeeds exactly on a free name and exactly the declared bytes |
| Unpack.Place | backupxfer/unpack.go:133-170 | an entry goes in exactly when it fits, clashes with none before it, and keeps the true total within the bound although the sum wraps |
| Unpack.WrapCheck | backupxfer/unpack.go:149-152 | the wrapped comparison fails exactly when the unwrapped sum is past the bound |
| Unpack.Unpack | backupxfer/unpack.go:89-181 | success if and only if the tar is sound, a condition that mentions no order, within the entry limit, one million unless given; then the tree is exactly what the entries denote, every entry is found at its path, and the report counts them |
| Unpack.SoundPermuted | backupxfer/unpack.go:103-171 | soundness depends on the bag of entries alone |
| Unpack.DenotesPermuted | backupxfer/unpack.go:103-171 | permuted entries denote the same tree |
| Unpack.OrderIrrelevant | backupxfer/unpack.go:89-181 | for every permutation, success, report and tree are the same |
| Unpack.ItemsPermuted | backupxfer/unpack.go:117-132 | the same for entries as named in the tar |
| SecretWalk.Reach | secret/secret.go:145-166 | what the shared seen set holds after a search that found nothing is closed and accepts nothing |
| SecretWalk.SearchType | secret/secret.go:136-143 | the shared-seen search equals graph reachability |
| SecretWalk.ClosedSetExcludes | secret/secret.go:145-152 | no accepting path starts in a closed set that accepts nothing |
| SecretWalk.ReachesThrough | secret/secret.go:145-166 | a type reaches what its element, its key or any of its fields reaches |
| SecretWalk.ReachesOnlySelf | secret/secret.go:145-166 | a plain type or an interface reaches only itself |
| SecretWalk.Walker.TypeReaches | secret/secret.go:136-143 | the memo tables always agree with reachability |
| SecretWalk.Walker.Seen | secret/secret.go:234-244 | records a followed reference |
| SecretWalk.Walker.Value | secret/secret.go:172-221 | true only if a reachable position can carry a secret; false leaves everything followed settled |
| SecretWalk.Walker.Each | secret/secret.go:223-230 | the same for the positions below |
| SecretWalk.InertChild | secret/secret.go:177-184 | below a type that reaches neither, nothing reaches either: the cut-off loses nothing |
| SecretWalk.CarriesIff | secret/secret.go:185-221 | a value carries a secret exactly when its type reaches one or something standing in it, held by an interface, inline or behind a reference, carries one |
| SecretWalk.PathSafe | secret/secret.go:185-221 | no path from a settled position carries a secret |
| SecretWalk.Contains | secret/secret.go:105-115 | terminates on every cyclic heap and is true exactly when some reachable position has a type that reaches secret.Value |
| Quoting.Unquote | proto/seed.go:369-435 | the loops compute the quoting's recursive reading |
| Grammar.UnquoteIff | proto/seed.go:369-435 | a trimmed text is accepted and means a value exactly when both are empty, or it is what the renderer writes for the value, or it is double-quoted with the value spelled in plain characters and the four escapes, or it is the value itself without any of the five marks |
| Quoting.UnquoteOfQuoted | proto/seed.go:243-249 | unquote is a left inverse of shellQuote, for every byte content |
| Quoting.RequoteIff | proto/seed.go:374-396 | accepted single-quoted text is what the renderer writes for its value, and the renderer writes it if and only if it has no newline, carriage return or NUL |
| Quoting.QuotedAgreesWithShell | proto/seed.go:374-425 | whenever unquote accepts quoted text, a POSIX shell reads it as one word of that value |
| Quoting.ShellReadsQuoted | proto/seed.go:239-249 | whatever the renderer quotes, a POSIX shell reads back byte for byte |
| Quoting.UnquotedAgreesIff | proto/seed.go:426-434 | an accepted unquoted value agrees with the shell if and only if it has no blank, operator or expandable tilde |
| Quoting.UnquotedDisagrees | proto/seed.go:426-434 | an accepted unquoted value that the shell does not read as one word |
| Sorting.SortedKeys | proto/seed.go:230-237 | each key once, in byte order, whatever order the map yields |
| Sorting.SortedKeysUnique | proto/seed.go:195-206 | that order is the only one, so a seed has one text |
| Sorting.BeforeIff | proto/seed.go:230-237 | the order is byte order: a proper prefix first, else by the first byte that differs |
| Seed.RenderSeed | proto/seed.go:151-221 | renders exactly the seeds with a known role, a valid node id, usable extra names and writable values, to the fixed layout |
| Seed.RenderingUnique | proto/seed.go:147-150 | a seed has one rendering |
| SeedLines.RenderedText | proto/seed.go:166-221 | every seed file begins with its header and the nine named lines in this order, the last six only when not empty, and without extra fields they are all of it |
| SeedLines.RolesAndFiles | proto/seed.go:151-175 | the four roles, the file each is written to and the header line it gets |
| Labels.NodeIDsAreLabels | proto/seed.go:254-280 | the node-id rule is the tile schema's label rule |
| Labels.LabelIff | proto/seed.go:250-280 | which is letters, digits and inner hyphens, at most 63 |
| Seed.ParseSeed | proto/seed.go:303-359 | the loop folds the lines as read, and any bad or over-long line fails the whole |
| SeedLines.LineReads | proto/seed.go:310-328 | a line reads as its name and unquoted value whatever ASCII blanks stand around the line, the name and the value |
| SeedLines.LineRefused | proto/seed.go:317-320 | a line without an equals sign is refused |
| SeedLines.EnvNameIff | proto/seed.go:439-455 | a name is usable exactly when it is a letter or underscore followed by letters, digits and underscores |
| SeedLines.CommentReads | proto/seed.go:314-316 | a line that begins with a hash after blanks says nothing |
| Runes.TrimSpaceOfRunes | proto/seed.go:313-313 | on UTF-8 text trimming bytes is trimming the runes that are white space |
| SeedRoundTrip.ReadsField | proto/seed.go:310-328 | a written line reads back as its key and value unless it passes the scanner's limit |
| SeedRoundTrip.AssignedSeed | proto/seed.go:329-357 | assigning every written field gives the seed back, omitted ones included |
| SeedRoundTrip.RenderingReads | proto/seed.go:303-359 | parsing a rendering reads the origin's later lines and then the fields, and the fields alone give the seed |
| SeedRoundTrip.RoundTrip | proto/seed.go:291-359 | with a one-line origin, parsing a rendering gives the seed with origin dropped and a blank cluster defaulted, if and only if no line passes the scanner's limit |
| SeedRoundTrip.StoredAgain | proto/seed.go:161-164 | what was read back has the same fields to render, and storing it again changes nothing |
| SeedRoundTrip.PlainRenders | proto/seed.go:151-221 | an identified seed with writable values and no extra fields renders |
| SeedOrigin.RoundTripIff | proto/seed.go:151-359 | for every seed that renders and every origin, the round trip holds if and only if no line passes the scanner's limit and the origin's later lines are well formed and set only what the seed writes after them, or an empty value of a field it leaves out |
| SeedOrigin.FoldSays | proto/seed.go:310-351 | of each key, the parsed seed holds the last value set |
| SeedOrigin.CoveredIff | proto/seed.go:329-350 | fields cover what was read before them exactly when it says nothing of the keys they do not write |
| SeedOrigin.OriginLineIsRead | proto/seed.go:167-172 | an origin whose second line assigns a key the seed does not write fails the round trip |
| SeedOrigin.OriginCommentIsHarmless | proto/seed.go:314-316 | an origin whose second line is a comment does no harm |
| Paths.UnderIff | tileschema/privilege.go:335-338 | the textual prefix test is containment of component lists, with the root under itself |
| Paths.ComponentsStep | tileschema/privilege.go:321-321 | one more name goes down, a dot or nothing stays, two dots go up and never above the root |
| Paths.ComponentsClean | tileschema/privilege.go:321-321 | a cleaned path has no empty, dot or dot-dot component |
| Paths.CleanIff | backupxfer/server.go:170-172 | the clean absolute paths are exactly the plain components written out |
| Paths.CleanTwice | tileschema/privilege.go:321-321 | cleaning a cleaned path changes nothing |
| Trust.RootTexts | tileschema/privilege.go:282-285 | the roots by component are these paths |
| Trust.ExceptionTexts | tileschema/privilege.go:294-298 | the exceptions by component are these paths |
| Trust.ViolationIff | tileschema/privilege.go:300-333 | a path is refused exactly when the tree at it holds a path in a protected root and in no exception |
| Trust.ViolationNames | tileschema/privilege.go:300-333 | the root named is one whose tree meets the path's |
| Trust.LeavingException | tileschema/privilege.go:315-333 | however an exception is written, a path that leaves it by dot-dot for any name that is not an exception is refused, by the root it reaches |
| Privilege.Builder.Add | tileschema/privilege.go:347-351 | the union with one grant, at the higher rank |
| Privilege.TierRanks | tileschema/privilege.go:51-68 | the three tiers and their ranks, and that any other name ranks lowest |
| Privilege.Builder.ClassifyHostPath | tileschema/privilege.go:500-565 | the textual loops rate a path as its components say: socket, its ancestors, routine trees, host-trusting trees, data roots, anything else |
| Rating.RefusedRatedIff | tileschema/privilege.go:500-565 | a refused path is rated host-trusting if and only if, trimmed, it is neither /var/lib nor in the app data |
| Rating.RefusedRated | tileschema/privilege.go:214-243 | without surrounding white space exactly /var/lib is rated lower |
| Rating.TrailingSpace | tileschema/privilege.go:500-511 | the app-data path with a space after it is refused and rated routine |
| Derivation.AddItem | tileschema/privilege.go:420-493 | one turn of a loop merges exactly what one fact grants |
| GrantTable.CapTable | tileschema/privilege.go:420-430 | a capability is granted under its upper-case name without prefix, host-trusting exactly for the eight escapes |
| GrantTable.GroupTable | tileschema/privilege.go:465-472 | a group is host-trusting exactly when it is docker, disk or kmem |
| GrantTable.OptTable | tileschema/privilege.go:441-455 | the options that switch a protection off are host-trusting, no-new-privileges is no grant, any other is elevated |
| GrantTable.JoinTable | tileschema/privilege.go:484-493 | joining a service of the stack is no grant, joining anything else is |
| GrantTable.PlainTable | tileschema/privilege.go:396-482 | the remaining facts, each with its name and rank |
| GrantTable.PathTable | tileschema/privilege.go:500-511 | mounts and devices are rated alike under their own prefixes: nothing, host-trusting when relative, else by component |
| GrantTable.SocketTable | tileschema/privilege.go:513-538 | the socket is flagged exactly for the four runtime sockets and their ancestors |
| GrantTable.RoutineTable | tileschema/privilege.go:540-544 | app data and the timezone file are no grant |
| GrantTable.TreeTable | tileschema/privilege.go:546-562 | everything in a system tree is host-trusting under its own path |
| GrantTable.DevTable | tileschema/privilege.go:546-551 | the whole of /dev is host-trusting, what is in it elevated |
| GrantTable.StorageTable | tileschema/privilege.go:552-558 | the runtimes' storage is host-trusting under one name |
| GrantTable.VarTable | tileschema/privilege.go:552-565 | the rest of the platform's state is host-trusting, the rest of /var elevated |
| GrantTable.ElsewhereTable | tileschema/privilege.go:564-564 | anything outside the system trees, /var and /dev is elevated |
| Derivation.DerivePrivilege | tileschema/privilege.go:393-496 | the result describes the least upper bound of all facts' grants: its sorted names, its highest tier, its socket flag |
| Derivation.TotalAbove | tileschema/privilege.go:347-351 | the total is above what every fact grants |
| Derivation.TotalLeast | tileschema/privilege.go:347-351 | and below every other bound |
| Derivation.TotalFrom | tileschema/privilege.go:357-369 | every grant comes from some fact at that very rank |
| Derivation.TotalBySet | tileschema/privilege.go:371-376 | neither the order nor the repetition of facts matters |
| Derivation.DerivedUnique | tileschema/privilege.go:357-369 | one derivation for one set of grants |
| Safety.UndeclaredGrants | tileschema/validate.go:365-374 | exactly the derived grants that no declared one, trimmed, equals |
| Safety.ValidateTileSafety | tileschema/validate.go:286-361 | accepts if and only if images are pinned, no mount or device reaches the trust chain, and the declaration covers tier, grants, socket, capability and hardware |
| Safety.PinnedIff | tileschema/validate.go:399-426 | an image is pinned exactly when it is a name, an at sign and a sha256 digest of 64 lower-case hexadecimal digits |
| Safety.UndeclaredTakesNothing | tileschema/validate.go:317-336 | a tile without a declaration is accepted only if its stack takes nothing |
| Safety.FactsHave | tileschema/privilege.go:393-496 | the facts visited are exactly those listed, so the dimensions are independent of each other's order |
| Safety.AcceptanceMonotone | tileschema/validate.go:286-361 | dropping facts, keeping an image, or declaring more never turns an accepted tile into a refused one |
| Safety.AcceptanceByFacts | tileschema/validate.go:286-361 | tiles with the same facts in any order are accepted alike |
| Safety.RoutineAccepted | tileschema/validate.go:338-351 | a pinned stack that takes nothing is accepted whatever it declares |
| Safety.AcceptedDeclares | tileschema/validate.go:317-336 | an accepted tile declares every grant of every fact, within its tier |
| Safety.AcceptedSparesTrustChain | tileschema/validate.go:303-315 | no tree an accepted tile mounts holds anything of the trust chain |
| Bundle.PartitionTiles | tileschema/bundle.go:175-186 | kept are exactly the first acceptable tiles of each id, rejected the others with their reasons, both in order |
| Bundle.IndicesSplit | tileschema/bundle.go:170-174 | the two are an order-preserving split of all positions |
| Bundle.Validate | tileschema/bundle.go:238-250 | succeeds exactly when the contract version is one, the bundle version positive, some tile is there and every tile would be kept |
| Bundle.RejectsNothingIff | tileschema/bundle.go:228-250 | the tolerant reader rejects nothing exactly when the strict one accepts every tile, and then keeps all |
| Bundle.KeptAgain | tileschema/bundle.go:203-226 | what was kept is acceptable as it stands |
| Bundle.PartitionTwice | tileschema/bundle.go:170-186 | partitioning what was kept is the identity |
| Bundle.ParseFetchedBundle | tileschema/bundle.go:136-157 | returns a bundle exactly when the envelope is valid and some tile is kept, and every bundle it returns passes Validate |
| Bundle.ParseBundle | tileschema/bundle.go:104-113 | the strict reader returns the decoded bundle or nothing |
| SecretTokens.ScanSecretTokens | tileschema/secrets.go:53-91 | succeeds exactly when every occurrence of the prefix is well formed and unescaped, and returns precisely those, ordered and disjoint |
| SecretTokens.OccursIff | tileschema/secrets.go:53-70 | an occurrence is the prefix after that many bytes |
| SecretTokens.NoneInside | tileschema/secrets.go:77-89 | no occurrence begins inside a token |
| SecretTokens.Decomposed | tileschema/secrets.go:27-34 | the text is the gaps and the written tokens, in turn |
| SecretTokens.GapsFree | tileschema/secrets.go:27-34 | no gap holds the prefix |
| Members.MemberSegment | proto/backup.go:520-539 | both loops end, and one pass of the collapsing is enough |
| Members.SegmentShape | proto/backup.go:520-539 | a segment is never empty or hidden, has only file-name characters and no ".." |
| MemberNames.SegmentTrims | proto/backup.go:520-521 | white space around a name does not count |
| MemberNames.SegmentSkipsDots | proto/backup.go:531-531 | leading dots do not count |
| MemberNames.SegmentKeeps | proto/backup.go:522-530 | every letter, digit, dot, underscore and hyphen stays in its place, anything else becomes an underscore |
| MemberNames.ReplaceDotsPair | proto/backup.go:532-534 | a pair of dots becomes one underscore |
| MemberNames.SegmentOfNothing | proto/backup.go:535-537 | a name of which nothing is left is called unnamed |
| MemberNames.SegmentOfSegment | proto/backup.go:520-539 | reducing a segment changes nothing |
| MemberNames.MemberPathInjective | proto/backup.go:494-496 | different reduced names have different member paths |
| MemberNames.MemberIff | proto/backup.go:509-518 | the valid member paths are exactly volumes, a valid name, and a stem of at most 111 name characters with the suffix |
| MemberNames.ProducedIff | proto/backup.go:498-518 | a valid member path could have been produced by BackupMemberPath if and only if neither name has a pair of dots |
| MemberNames.NotProduced | proto/backup.go:498-518 | a valid member path that BackupMemberPath never produces |
| MemberNames.ValidIffReduced | proto/backup.go:206-225 | a name without a pair of dots is valid exactly when it needs no reduction and has at most 128 characters |
| MemberNames.UrlPathOf | backupxfer/wire.go:141-154 | however many slashes the destination ends with, one stands before the generation |
| Members.MemberPathValidIff | proto/backup.go:494-518 | the path built from any two names is a member path exactly when the segments fit |
| Members.IngestPathRoundTrip | backupxfer/wire.go:141-166 | splitting the path of a member URL gives back its generation and member |
| Members.SplitIngestPathSound | backupxfer/wire.go:156-166 | every path accepted is the prefix, a valid generation and a valid member, and every such path is accepted |
| Members.DerivedNamesAreComponents | backupxfer/server.go:456-489 | every name the endpoint hands to the file system is one plain component |
| Members.TempPathsApart | backupxfer/server.go:484-489 | temporary names are injective and never a member's |

## Left out

- HTTP, TLS, deadlines, full-duplex draining, logging and status codes: a refusal is a handler leaving, and the body is any sequence of reads. A reader never returns no bytes and no error.
- X25519, HKDF, ChaCha20-Poly1305, SHA-256, HMAC, base64 and JSON: parameters with the hypotheses above. JSON replaces invalid UTF-8 and base64 decoding is not strict, so token facts are about the payload, and a grant with invalid UTF-8 does not meet the inverse law.
- IngestRuns.MembersImmutable: a file placed by hand on the target between the last existence check and the rename is not modelled, and neither is the write verb's commit rename of the partial directory.
- IngestRuns.NoTempLeftBehind: unlinking a temporary file is assumed to succeed.
- IngestRuns.RunInv: assumes that a generation is opened only when no handler is registered and no removal of the same directory is under way; IngestLimits.OpenSafeIff says that this is exactly what is needed.
- IngestReceipts.ReceiptTracesToMint: a receipt's plaintext facts, header fields and time are copied from the request and the clock and are not modelled.
- Endpoint.Endpoint.Open: creating the directories is an input, since errno and permissions are not modelled.
- Unpack.Unpack: modes, ownership, times and the stream digest are not modelled, a failed unpack's partial tree is left unspecified, and nothing else writes to the staging directory.
- SecretWalk.Contains: reflection is a finite set of types closed under components and a finite well-typed heap; a slice's reference key is its target with its length.
- Members.Segment: one character is one rune here and one byte elsewhere; valid names are ASCII, where the two agree.
- SeedRoundTrip.RoundTrip: a nil and an empty Extra map are the same, and error texts are not modelled.
- Quoting.QuotedAgreesWithShell: about the value as trimmed; a NUL byte is an ordinary character to the modelled shell, and white space outside ASCII around a value is trimmed by the parser and not by a shell.
- Derivation.DerivePrivilege: the Go case mappings are parameters, so the grants of a capability, group or option are stated up to them.
- Safety.ValidateTileSafety: error texts and the checks of ValidateTile are not modelled.
- Bundle.PartitionTiles: the judgement on one tile is a parameter, and the wording of a rejection is not modelled.
- The restore direction (`backupxfer/fetch.go`, `restore_wire.go`), `artifactsig`, SortTiles, TierRaised, TierCovers and the rest of `proto`: shape checks and plumbing that would only add easy members.
- `ui` and `logkit`: rendering and handler wrapping.
