# Ouroboros host scripts: a Dafny model

The scripts under `scripts/` are the host's half of Ouroboros: a foreign 9P-like
export and its client, the Ed25519 reference both sign with, the model a disk rig
compares write orders against, and the tools that build and write disks. This
project models what those scripts decide and proves what they promise, for all
inputs and, where there is state, for all runs.

Every file is one module; `dafny verify dfyconfig.toml` checks them together.

- **Signatures** (`Modular`, `Fermat`, `SquareRoot`, `Ed25519`, `PointCodec`,
  `Complete`, `Signing`, `Verifying`, `Parameters`). From congruences up to: the point
  codec is a pair of inverses, the addition has no exceptions and the curve is closed
  under it, double-and-add is repeated addition, every signature verifies, exactly the
  solutions of the equation do, and `sign` makes the only one it could.
  Sections 5.1.3 and 5.1.5 to 5.1.7 of RFC 8032.
- **The batch model** (`AllocBatch`, `BatchRequests`, `BatchWrites`, `AllocModel`). The
  write order of cluster allocation: no crash leaves a link to a cluster without its bit
  and its entry, and each write is of its own sector and one that was asked for. `AllocModel` is the class as written, each method proved against the
  step functions of `AllocBatch`.
- **Sticks** (`PlanMerge`, `StickWrite`). Laying an old tree over a new one by
  commands that are all legal, and writing a disk so that nothing is lost
  whatever fails.
- **The export** (`Readdir`, `ReaddirWalk`, `Np`, `ReadLoop`, `Verbs`, `Keyed`,
  `Protocol`, `Connection`).
  Listings and pages, the fid table, the read loop, keyed sessions under a network
  that does what it likes, and the connection loop.
- **On-disk formats** (`SetSeal`, `ExfatSets`, `ExfatWalk`, `Fat32Chain`,
  `MbrDisk`, `MbrBytes`). Sections 6.3.3, 7.4, 7.6 and 7.7 of the exFAT specification; FAT32
  chains; MBR layout.
- **Wire constants** (`ResolveSums`). The least fixpoint of a list of sums.

## What is taken as given

- Hashes and MACs are parameters or ideal values. A keyed tag equals another
  exactly when key, number and data do; the key schedule is injective in what it
  hashes; a client's and the export's ephemerals are fresh and their secrets kept;
  a reply that carries the export's ephemeral is signed over the client's nonce.
- That `add` associates on the curve, that P is prime and that L times B is the
  identity; for the uniqueness of signatures also that L is prime. Everything else
  about the curve is proved.
- A write may have changed any of its sectors and left any as they were, whether it
  returns or not. The system writes to a disk only while it can see a table in sector 0.
- Two runs of `bootstick.py` do not overlap: its test for a kept image (line 860) and the
  writing of one are not a single step, and nothing else keeps a second run out between them.

## Where the code and its comments differ

The model follows the code.

- `scripts/bootstick.py:919-920` says a refusal before the write starts removes the
  kept image. Lines 944 to 955, which stage the files to write, come after the
  block that removes it and before the block that writes: a failure there leaves
  the image over an untouched disk, and the next run is refused.
  `StickWrite.RefusedUntouched` says exactly when, `StickWrite.LeftThoughUntouched`
  gives the run.
- `scripts/np9p_server.py:658-661` says a fid verb from another user answers
  FS_ERR_PERM and the fid is kept. Line 682 names that constant, which the file never
  defines (only `scripts/np9p_client.py:258` does), and nothing up to the accept loop
  catches the exception: the server ends, and its fids with it. `Np.StopsIff` says
  exactly which histories it does not live through, `ReadLoop.AnotherAsks` gives one,
  and every other history lemma is about the ones it does.
- `bytes.splitlines` breaks at CR as well as LF, while the walk counts LFs. The lines
  are the entries exactly when no name holds a break (`Readdir.SplitListing`); the walk
  brings the listing's bytes exactly when no CR is without its LF
  (`ReaddirWalk.WalkExact`).
- `scripts/bootstick.py:936-943` rests the order of the writes on sector 0 being blank;
  the blanking is not read back before the writes that rely on it.
  `StickWrite.TableMeansWhole` says what a table means when it was lost, `StickWrite.BlankingLost` gives the run.
- `scripts/test-alloc-batch.py` states its two rules as assertions; when an
  allocation trips one is `AllocBatch.AllocKeeps`, an if-and-only-if over a
  condition on what is held before the call.

## Model

| member | source | states |
|---|---|---|
| `Fermat.FermatLittle` | scripts/gen-sign-vectors.py:22-23 | Fermat's little theorem, proved by permuting the residues: what makes `pow(x, P - 2, P)` an inverse |
| `Fermat.InverseByPower` | scripts/gen-sign-vectors.py:22-23 | `inv(x)` times x is 1 modulo any prime, for every x that is not 0 modulo it |
| `Fermat.TwoIsNonResidue` | scripts/gen-sign-vectors.py:50-51 | 2 is no square modulo a prime that is 5 modulo 8 (Gauss's argument on the even residues): why the correction factor works |
| `SquareRoot.CandidateSquare` | scripts/gen-sign-vectors.py:49 | the square of `pow(x2, (P + 3) // 8, P)` is x2, up to the sign x to the (P - 1) / 2 gives |
| `SquareRoot.RootOfMinusOne` | scripts/gen-sign-vectors.py:50-51 | `pow(2, (P - 1) // 4, P)` is a square root of -1 |
| `SquareRoot.RootFound` | scripts/gen-sign-vectors.py:48-53 | for every nonzero square, the candidate or the corrected candidate is its root, so the second test never refuses one |
| `PointCodec.EncDecode` | scripts/gen-sign-vectors.py:63-64 | `enc(point_decode(b)) == b` for every accepted 32-byte b |
| `PointCodec.RecoverComplete` | scripts/gen-sign-vectors.py:43-56 | `recover_x` of a curve point's y and parity is exactly its x: root, correction, parity choice and the x = 0 case |
| `PointCodec.DecodeEnc` | scripts/gen-sign-vectors.py:106-113 | `point_decode(enc(pt)) == pt` for every curve point |
| `PointCodec.DenominatorNonzero` | scripts/gen-sign-vectors.py:46 | the denominator `recover_x` inverts is never 0 for a curve point's y |
| `PointCodec.DecodedOnCurve` | scripts/gen-sign-vectors.py:106-113 | what is decoded is on the curve exactly when the inverted denominator was not 0 |
| `Complete.NoSquareMultiple` | scripts/gen-sign-vectors.py:43-56 | with 2 D a square, D times a square is no square but 0: 2 being none, neither is D |
| `Complete.DecodedIsPoint` | scripts/gen-sign-vectors.py:106-113 | every 32 bytes that decode are a point of the curve, without exception |
| `Complete.NoDenominator` | scripts/gen-sign-vectors.py:26-30 | neither denominator `add` inverts is 0, for any two points of the curve |
| `Complete.ClosedUnderAdd` | scripts/gen-sign-vectors.py:26-30 | the sum of two points is a point: the curve is closed under `add` |
| `Ed25519.Mul` | scripts/gen-sign-vectors.py:33-40 | the loop computes the recursive double-and-add for every integer e, negative ones included (the identity) |
| `Signing.MulIsRepeatedAdd` | scripts/gen-sign-vectors.py:33-40 | double-and-add equals e-fold `add`, for every e and every curve point, given associativity |
| `Signing.Commutes` | scripts/gen-sign-vectors.py:26-30 | `add` is commutative, for all points |
| `Signing.IdentityLaw` | scripts/gen-sign-vectors.py:26-30 | (0, 1) is neutral for `add` on every curve point |
| `Signing.TimesModOrder` | scripts/gen-sign-vectors.py:80-87 | multiples of a point of order L depend only on the scalar modulo L |
| `Signing.SignVerifies` | scripts/gen-sign-vectors.py:80-103 | `verify(public_key(sk), msg, sign(sk, msg))` is true for every key, message and 64-byte digest, given associativity and order times base = identity |
| `Verifying.DecodesTo` | scripts/gen-sign-vectors.py:106-113 | 32 bytes decode to a point if and only if it is on the curve and they are its code |
| `Verifying.VerifyIff` | scripts/gen-sign-vectors.py:90-103 | `verify` accepts if and only if the key and the first half are the codes of points A and R, the second half that of an s below the order, and s B = R + k A in s-fold and k-fold addition |
| `Verifying.PrimeIsExact` | scripts/gen-sign-vectors.py:90-103 | a prime order of a base that is not the identity is its exact order: no smaller multiple is the identity |
| `Verifying.OneSecondHalf` | scripts/gen-sign-vectors.py:90-103 | two accepted signatures of one key and message with the same first 32 bytes are equal, the order being exact |
| `Verifying.SignIsTheOne` | scripts/gen-sign-vectors.py:80-103 | `sign` makes the one accepted signature that starts with the code of r B, r hashed from the second half of the secret's hash and the message |
| `Verifying.KeyIsMultiple` | scripts/gen-sign-vectors.py:75-77 | the public key is the code of the secret scalar's multiple of B |
| `Verifying.Clamped` | scripts/gen-sign-vectors.py:67-72 | the secret scalar's bytes are the hash's first 32 with the low three bits and the top bit cleared and the next one set |
| `Parameters.QuotientUnique` | scripts/gen-sign-vectors.py:22-23 | a quotient computed with `inv` is the only residue that solves its equation |
| `Parameters.BaseOnCurve` | scripts/gen-sign-vectors.py:59-60 | with P prime, the computed D, BY and B are the published constants, and B is on the curve |
| `Parameters.EdwardsWhole` | scripts/gen-sign-vectors.py:17-19 | on the computed constants 2 D is a square, so D is none |
| `Parameters.Ed25519Points` | scripts/gen-sign-vectors.py:90-113 | what the script decodes are points of its curve, and their sums are |
| `Parameters.Ed25519SignVerifies` | scripts/gen-sign-vectors.py:80-103 | the signing law for edwards25519 itself: what is assumed is P prime, that `add` associates, and L times B = identity |
| `Parameters.Ed25519VerifyIff` | scripts/gen-sign-vectors.py:90-103 | the same if-and-only-if on the script's own constants |
| `Parameters.Ed25519SignIsTheOne` | scripts/gen-sign-vectors.py:80-103 | and the uniqueness, L being prime |
| `AllocModel.Model.constructor` | scripts/test-alloc-batch.py:113-122 | the fresh model is the initial state of the specification |
| `AllocModel.Model.Begin` | scripts/test-alloc-batch.py:130-131 | a request starts with no bitmap sector held |
| `AllocModel.Model.WriteBits` | scripts/test-alloc-batch.py:133-137 | the held bits go to the disk, once, and only when dirty |
| `AllocModel.Model.FlushFat` | scripts/test-alloc-batch.py:139-148 | bits first, then the FAT sector; refused exactly when the specification raises |
| `AllocModel.Model.Touch` | scripts/test-alloc-batch.py:150-155 | another sector's dirty entries are flushed before it is held |
| `AllocModel.Model.SetEntry` | scripts/test-alloc-batch.py:157-162 | the entry and its link join the held sector |
| `AllocModel.Model.ScanTo` | scripts/test-alloc-batch.py:169-174 | the scan enters each sector from the hint's, writing the one it leaves |
| `AllocModel.Model.Alloc` | scripts/test-alloc-batch.py:164-179 | raises exactly when the find is behind the hint or a link to the cluster is already held for another sector |
| `AllocModel.Model.End` | scripts/test-alloc-batch.py:181-186 | nothing dirty is left, and it never raises from a reachable state |
| `AllocBatch.AllocKeeps` | scripts/test-alloc-batch.py:164-179 | an allocation of c raises exactly when (c - 2) / 8 is behind the hint or c is linked ahead; else what will be on the disk gains exactly its bit and its end-of-chain entry |
| `AllocBatch.FlushKeeps` | scripts/test-alloc-batch.py:139-148 | a flush changes what is on the disk, never what will be: the caches lose nothing |
| `AllocBatch.RunServes` | scripts/test-alloc-batch.py:130-186 | over any sequence of requests that allocate before they link and find forward, no assertion fires and the invariant holds |
| `AllocBatch.BatchIsCrashSafe` | scripts/test-alloc-batch.py:130-186 | and after every prefix of the writes, each link on the disk to a cluster the run allocates has its bit and its target's entry there; at the end every bit and entry is on the disk |
| `BatchRequests.RequestReads` | scripts/test-alloc-batch.py:164-174 | a request whose last allocation is c reads each bitmap sector from the hint's to bitmap + (c - 2) / 4096 exactly once; one that allocates nothing reads none |
| `BatchWrites.WritesInPlace` | scripts/test-alloc-batch.py:124-148 | over every run: a bitmap write is of sector bitmap + (c - 2) / 4096 for every bit c it holds, a FAT write of sector fat + e / 128 for every entry e |
| `BatchWrites.RequestFatWrites` | scripts/test-alloc-batch.py:139-162 | a request writes exactly the FAT sectors its operations ask for, one for each stretch of them on one sector that sets an entry, in order |
| `BatchWrites.RequestBitWrites` | scripts/test-alloc-batch.py:133-174 | every bitmap write puts a new bit on the disk, and between two FAT writes the sectors written rise, so none is written twice |
| `BatchRequests.SetsComeLast` | scripts/test-alloc-batch.py:181-186 | the directory-set sectors follow all of the request's FAT and bitmap writes |
| `BatchRequests.BuildIsCrashSafe` | scripts/test-alloc-batch.py:352-378 | the two requests the rig builds are never refused and are crash safe, for every chain of fresh clusters found forward, every run and every new cluster |
| `BatchRequests.LinkBeforeAllocRaises` | scripts/test-alloc-batch.py:139-148 | linked before it is allocated, from another FAT sector, a cluster always trips the assertion |
| `BatchRequests.GapFillAt` | scripts/test-alloc-batch.py:356-363 | the gap fill, operation by operation |
| `BatchRequests.LinkRunAt` | scripts/test-alloc-batch.py:369-371 | the contiguous run's links, entry by entry |
| `PlanMerge.Remove` | scripts/bootstick.py:240-249 | an entry's subtree is removed children first: every command legal, exactly the subtree gone, refused exactly when a path cannot be quoted |
| `PlanMerge.LayEntry` | scripts/bootstick.py:252-270 | one turn of the loop takes the overlay of the paths done to the overlay of one more |
| `PlanMerge.OverlayStep` | scripts/bootstick.py:228-271 | where the overlay of one more path differs: its own entry, and what it replaces |
| `PlanMerge.StillThere` | scripts/bootstick.py:228-271 | what the plan believes exists in the new tree is what the commands so far have left |
| `PlanMerge.GoneStep` | scripts/bootstick.py:228-271 | the removed set grows by exactly what is cleared |
| `PlanMerge.Plan` | scripts/bootstick.py:228-271 | for all parent-closed trees the commands are legal in order and leave the stick's entries as they are and of the image exactly what the stick has not and nothing of the stick's takes; refused if and only if a path or source it must name holds a quote or a newline |
| `PlanMerge.OverlayIsLaid` | scripts/bootstick.py:228-237 | what the overlay is, with none of the plan's own tests |
| `StickWrite.StepKeeps` | scripts/bootstick.py:919-990 | every step, failure, crash, lost write (the blanking included), move by the user and write by the system keeps the invariant |
| `StickWrite.NothingLost` | scripts/bootstick.py:860-862 | after any run: the disk is as the last run found it or that run's complete image is kept or moved away, and so is every earlier image whose disk was never verified |
| `StickWrite.TableMeansWhole` | scripts/bootstick.py:936-975 | once a run has begun to write, a non-blank sector 0 is the image's own and the rest of the image was already there; or, if no write has blanked it, it is still the one the run found |
| `StickWrite.BlankingLost` | scripts/bootstick.py:956-970 | the run that needs the second case: the blanking lost, part of the image under the old table |
| `StickWrite.FinishedMeansWritten` | scripts/bootstick.py:971-990 | the run that removes the kept image has the image on the disk, table included |
| `StickWrite.PlayKeeps` | scripts/bootstick.py:919-990 | so does any sequence of them, from any world that has it |
| `StickWrite.KeptStays` | scripts/bootstick.py:857-862 | a kept image between runs is touched by no number of further runs, each of which is refused; once the user has moved it, it is in their hands |
| `StickWrite.RefusedUntouched` | scripts/bootstick.py:919-955 | a refusal before the disk is touched removes the image exactly when it comes inside the building block; one while the files to write are staged leaves it, and the next run is refused |
| `StickWrite.LeftThoughUntouched` | scripts/bootstick.py:944-955 | the run that shows it: staging fails, the disk is as it was, the image stays |
| `StickWrite.HealthyReadsBack` | scripts/bootstick.py:936-975 | when every write takes, both read-backs succeed whatever the system writes whenever it sees a table |
| `StickWrite.HealthyFinish` | scripts/bootstick.py:956-990 | and the run that finishes leaves the image, nothing old in the last 2048 sectors past it, the disk as the run found it between the two, and nothing kept |
| `StickWrite.BeyondTheImage` | scripts/bootstick.py:958-969 | after any run: past the image the disk is as the run found it, but for the last 2048 sectors, which may have been zeroed |
| `StickWrite.TailGoesFirst` | scripts/bootstick.py:958-970 | until the end of the disk is dealt with, the image's own sectors are as the run found them |
| `StickWrite.Stick.Write` | scripts/bootstick.py:860-990 | every way out of the script's sequence is a run of the machine, ending idle, and keeps its invariant; it returns only with the image on the disk and none kept, and does return when no step fails; otherwise the disk is untouched or the image is kept whole; past the image only the last 2048 sectors change, to zeros |
| `StickWrite.Stick.WriteHeadless` | scripts/bootstick.py:956-970 | blank sector 0, zero the last 2048 sectors past the image, write the rest: the machine's three steps in that order, and nothing else past the image |
| `StickWrite.Stick.Expose` | scripts/bootstick.py:971-990 | read back, MBR, read back, remove: the machine's four steps in that order |
| `Readdir.SplitListing` | scripts/np9p_server.py:413-421 | splitting a listing gives its entries back if and only if no name holds a line break (a file may end in CR) |
| `Readdir.LineTells` | scripts/np9p_server.py:413-421 | a line tells its entry, name and kind, while no name ends in a slash |
| `Readdir.ReaddirPage` | scripts/np9p_server.py:424-434 | a page is the longest run of whole entries that fits; None exactly when the first does not |
| `ReaddirWalk.Walk` | scripts/np9p_server.py:882-893 | the bounded loop, the next page from as many lines on as the last had line feeds |
| `ReaddirWalk.WalkExact` | scripts/np9p_server.py:882-893 | for any directory and window: some number of turns brings exactly the listing and ends, if and only if no name has a CR not before a line feed and no line is longer than the window |
| `ReaddirWalk.WalkAtLeast` | scripts/np9p_server.py:882-893 | a walk that ends never brought less than everything |
| `ReaddirWalk.CleanWalk` | scripts/np9p_server.py:882-893 | with clean names every entry comes once and in order, or the walk is refused at the first entry longer than the window |
| `ReaddirWalk.EndsOnly` | scripts/np9p_server.py:424-434 | an empty page only ever means the end |
| `Np.Exporter.Serve` | scripts/np9p_server.py:555-724 | the dispatch, fid table updated in place, is the specification's answer for every message and user, and a request that raises ends the server |
| `Np.Exporter.ServeFid` | scripts/np9p_server.py:667-699 | the fid verbs |
| `Np.Exporter.ServePath` | scripts/np9p_server.py:571-602 | the path verbs |
| `Np.Exporter.OpenFid` | scripts/np9p_server.py:604-664 | the NP_OPEN ladder and the search for the lowest free number |
| `Np.HistoryTidy` | scripts/np9p_server.py:650-664 | over every history the server lives through numbers stay in 3..10, each on a path of the tree |
| `Np.OpenGranted` | scripts/np9p_server.py:604-664 | an open is granted if and only if a slot is free, the path exists and the flags are READ, or READ and CREATE on a file; it takes the lowest slot |
| `Np.TableChange` | scripts/np9p_server.py:650-685 | a number is bound only by an open answered with it, freed only by its opener's clunk, and otherwise unchanged |
| `Np.RaisesIff` | scripts/np9p_server.py:679-682 | a request raises if and only if it is a fid verb on a fid another user opened |
| `Np.StopsIff` | scripts/np9p_server.py:1463-1465 | the server is gone after a history if and only if some call of it was, at its turn, on another user's fid |
| `ReadLoop.AnotherAsks` | scripts/np9p_server.py:679-682 | such a history from an empty table: one user opens, another asks |
| `Np.OthersKeepTheirs` | scripts/np9p_server.py:679-685 | while the server is up, other users' calls have left a fid as its opener left it, and none of them named it |
| `Np.OpenRefused` | scripts/np9p_server.py:625-657 | each refusal code of an open, if and only if, from the flags, the path and the table alone |
| `Np.ParentIs` | scripts/np9p_server.py:617-618 | the parent is what is before the last slash past the first byte, the root where there is none |
| `Np.StatTells` | scripts/np9p_server.py:437-469 | NP_STAT's record decodes to the size and the directory flag |
| `Verbs.ReadOnly` | scripts/np9p_server.py:710-716 | each of the eleven verbs that would change the tree answers FS_ERR_READ_ONLY, with no data and no fid changed, whatever it names |
| `Verbs.NoSuchVerb` | scripts/np9p_server.py:555-724 | a verb of no list answers FS_ERR_NO_SUCH_VERB, a message shorter than its header FS_ERROR, a session 0 |
| `Verbs.StatAnswers` | scripts/np9p_server.py:583-587 | NP_STAT through a frame: size, directory flag and zeros, or not found |
| `Verbs.ReadAnswers` | scripts/np9p_server.py:589-595 | NP_READ and NP_READ_AT through a frame: the same answer, the file's bytes from the offset, short only at its end; not found for no file |
| `Verbs.ReadFileAnswers` | scripts/np9p_server.py:597-602 | NP_READ_FILE through a frame: the first bytes under the whole size |
| `Verbs.OpenAnswers` | scripts/np9p_server.py:606-664 | NP_OPEN through a frame: granted under the exact condition, with the lowest free number |
| `Verbs.FidRefused` | scripts/np9p_server.py:666-682 | a fid verb of a number not open is an error, of another user's ends the server |
| `Verbs.ClunkAnswers` | scripts/np9p_server.py:683-685 | its opener's NP_CLUNK answers 0 and frees that number alone |
| `Verbs.OpenerReads` | scripts/np9p_server.py:686-699 | its opener's NP_FSTAT is NP_STAT of the path and its NP_PREAD NP_READ_AT of it, a directory refused |
| `Verbs.ReaddirAnswers` | scripts/np9p_server.py:574-581 | NP_READDIR through a frame: of clean names, the most whole entries from index a2 that fit a1 bytes; an error when the first does not fit, empty past the end, not found for no directory |
| `Verbs.ListsThroughFrames` | scripts/np9p_server.py:882-892 | the self-test's walk over frames brings the listing and ends if and only if no name has a bare CR and no line is longer than the window |
| `Np.ReadFileIsRead` | scripts/np9p_server.py:596-602 | NP_READ_FILE carries NP_READ_AT's bytes from the start and the whole size |
| `Np.Reopened` | scripts/np9p_server.py:650-685 | a number comes back only through an open answered with it, whatever came between |
| `Np.ClunkedRefused` | scripts/np9p_server.py:667-678 | until then every verb on it is refused |
| `Np.FstatIsStat` | scripts/np9p_server.py:686-690 | NP_FSTAT through a fid answers as NP_STAT of its path |
| `ReadLoop.ParseBuilt` | scripts/np9p_client.py:279-284 | the server parses the words the client packed, for every verb and payload |
| `ReadLoop.ReadToEof` | scripts/np9p_client.py:1583-1598 | the loop is the recursive read, for any fetcher |
| `ReadLoop.LegalReads` | scripts/np9p_client.py:1575-1598 | with any legal short reads what comes back is a prefix of the file, and all of it when the end was seen, which a file under the bound in bytes always reaches |
| `ReadLoop.StoppedBy` | scripts/np9p_client.py:1575-1598 | for any answers at all: the end was seen if and only if the last was 0 and empty; else it was an error, a status that was not the length, or the fetches had run out |
| `ReadLoop.FullChunks` | scripts/np9p_client.py:1581-1598 | with full chunks the end is seen if and only if the file fits one fetch fewer than the bound |
| `ReadLoop.PreadIsReadAt` | scripts/np9p_server.py:589-595 | NP_PREAD of a fid and NP_READ_AT of its path answer alike at every offset |
| `ReadLoop.FidReadsFile` | scripts/np9p_server.py:691-699 | the file through a fid is the file by its path and the file itself, for exactly the files of at most 63 chunks |
| `Keyed.KeyedSession.Serve` | scripts/np9p_server.py:1271-1291 | a frame is taken only with the next number and the tag of its own message; closing without a reply otherwise, and a raising request ends the export |
| `Keyed.ClientSession.Operate` | scripts/np9p_client.py:610-631 | one operation is a step of the client the runs are made of: the next number is spent and tagged, a reply is taken exactly when it is of a length allowed and tagged over that number, a wrong one closes the session, and none leaves it open |
| `Keyed.LateReply` | scripts/np9p_client.py:627-629 | a reply to any other operation is never taken for this one's |
| `Keyed.Agree` | scripts/np9p_server.py:1271-1291 | the two ends agree: the export takes the client's next request, and the client its answer unless it is too long |
| `Protocol.StepKeeps` | scripts/np9p_server.py:1246-1291 | every action of the network, of any client, giving up included, and of any session keeps the invariant |
| `Protocol.PerformedIsSent` | scripts/np9p_server.py:1271-1291 | on every run, whatever is performed under a key a client offered is a request that client sent, in the one session it adopted, as the session's user |
| `Protocol.PerformedOnce` | scripts/np9p_server.py:1279-1286 | in the order of the numbers, no number twice |
| `Protocol.NothingSkipped` | scripts/np9p_server.py:1279-1286 | and none skipped: with the two above, what is served is a prefix of what was sent |
| `Protocol.OneSession` | scripts/np9p_server.py:1300-1322 | two sessions never both perform for one client |
| `Protocol.ReturnedIsAnswer` | scripts/np9p_client.py:610-631 | what operation i returned is the export's answer to exactly request i, performed once, on the fid table left by the requests before it, whatever became of the operations before |
| `Protocol.GoesOn` | scripts/np9p_client.py:610-631 | a dropped reply does not end the session: the operation gives up, and the ends are level for the next |
| `Protocol.DownIff` | scripts/np9p_server.py:1463-1465 | the export is down exactly when the last request it performed was on another user's fid |
| `Protocol.ReturnedDecodes` | scripts/np9p_client.py:628-631 | so the caller has the status and the data the export answered, for every status a frame can hold |
| `Protocol.OpensIs` | scripts/np9p_server.py:1300-1322 | a session stays what the action that opened it said: key, nonce and user |
| `Protocol.PerformedAs` | scripts/np9p_server.py:1300-1322 | exactly one action of the run opened the session; the user performed for is the one the client claims if and only if that action is an opening frame of the client's own key, nonce and name |
| `Protocol.OpenedByAnother` | scripts/np9p_server.py:1300-1322 | a run in which it claims another |
| `Protocol.Exchange` | scripts/np9p_client.py:610-631 | an undisturbed exchange does return, so the promises above are not empty |
| `Connection.ServeConnection` | scripts/np9p_server.py:1333-1392 | the loop with its three state variables sends what the frames alone determine, and ends exactly at the first frame refused or raising, after one reply without a session, or when the peer stops |
| `Connection.OpenSession` | scripts/np9p_server.py:1300-1322 | a key offer: denied, refused, closed on, or a session under the verified name |
| `Connection.Request` | scripts/np9p_server.py:528-542 | a signed request is verified, squashed or served; without a reply nothing changes |
| `Connection.ActsFor` | scripts/np9p_server.py:274-375 | every frame either has one message performed, as a user an authorized peer was entitled to claim in this frame or the first, or changes nothing |
| `Connection.ActorIs` | scripts/np9p_server.py:303-332 | from the bytes alone: a frame has a message performed if and only if it is well signed by an authorized key whose peer may claim its name, or is the next numbered and tagged request of a session such a first frame keyed |
| `Connection.PerformedIff` | scripts/np9p_server.py:528-542 | then the message is bytes 152 on, or the tagged one, the name bytes 24 to 56 of the signed frame, and the answer goes back over that frame's nonce or under the session's number |
| `Connection.NothingElse` | scripts/np9p_server.py:528-542 | any other frame changes nothing, and is refused, closed on, or only told its session is open |
| `Connection.SquashedIs` | scripts/np9p_server.py:274-282 | the claim refused is the name up to its first NUL, and only for a peer that may not make it |
| `Connection.OpenedBy` | scripts/np9p_server.py:1381-1392 | a second frame is answered only after an NP_SESSION from an entitled sender was answered 0; keyed exactly when that frame offered a key and the export keys |
| `Connection.OpenedIff` | scripts/np9p_server.py:1366-1392 | a session opens if and only if the first frame is to be honoured, is an NP_SESSION of at least its header, and has a good exchange where it asks for a key that is given |
| `Connection.KeyedThroughout` | scripts/np9p_server.py:1354-1359 | once keyed, always keyed under the same keys, the n-th frame numbered n |
| `Connection.KeyingIsFirst` | scripts/np9p_server.py:1360-1368 | a key offered later closes the connection; a keyed frame before any key is denied |
| `SetSeal.ShiftIsTurn` | scripts/exfatimg.py:266 | the shifts, or and mask on unbounded integers are a 16-bit rotate-and-add |
| `SetSeal.SetChecksum` | scripts/exfatimg.py:261-267 | the loop computes the checksum |
| `SetSeal.ChecksumSkips` | scripts/exfatimg.py:265 | bytes 2 and 3 do not count |
| `SetSeal.ChecksumDetects` | scripts/exfatimg.py:261-267 | two equal-length sets that differ in exactly one other byte have different checksums |
| `SetSeal.SealFixed` | scripts/exfatimg.py:112 | sealing seals, is a fixed point, and changes bytes 2 and 3 alone; sealed means unchanged by sealing |
| `SetSeal.ChecksumOne` | scripts/exfatimg.py:261-267 | zeros sum to zero, one byte after them to itself, and a zero after that turns the sum right by one bit |
| `SetSeal.SealDetects` | scripts/exfatimg.py:261-267 | a sealed set with any one byte changed is not sealed |
| `ExfatSets.BuildEntrySet` | scripts/exfatimg.py:270-292 | the array built step by step is the specified set, or None exactly for what its fields cannot hold |
| `ExfatSets.HashName` | scripts/exfatimg.py:281-283 | the NameHash over the folded name |
| `ExfatSets.HashFolds` | scripts/exfatimg.py:280-283 | names that fold alike hash alike |
| `ExfatSets.HashTells` | scripts/exfatimg.py:280-283 | names that differ in exactly one folded byte hash apart |
| `ExfatSets.UnitsFold` | scripts/exfatimg.py:280-282 | two UTF-16 units fold alike if and only if they are one, or the two cases of an ASCII letter |
| `ExfatSets.UnitStays` | scripts/exfatimg.py:280-282 | and the fold is to upper case |
| `ExfatSets.HashZeros` | scripts/exfatimg.py:280-282 | zero bytes hash to zero |
| `ExfatSets.NamesLeast` | scripts/exfatimg.py:274-277 | there are as few name entries as hold the name |
| `ExfatWalk.HashBack` | scripts/exfatimg.py:283 | the stored NameHash is the folded name's |
| `ExfatWalk.Sets` | scripts/exfatimg.py:44-69 | the walk yields exactly the specified sets |
| `ExfatWalk.ReadName` | scripts/exfatimg.py:60-66 | the name is the joined name entries cut at NameLength |
| `ExfatWalk.NameBack` | scripts/exfatimg.py:60-66 | a built set's name entries give its name back |
| `ExfatWalk.EntryTypes` | scripts/exfatimg.py:278-291 | a built set's entries are of types 0x85, 0xC0 and 0xC1, FAT-chained |
| `ExfatWalk.ExtentBack` | scripts/exfatimg.py:87-95 | a built set's first cluster, lengths and chain flag come back |
| `ExfatWalk.WalkFinds` | scripts/exfatimg.py:44-69 | the walk over sets laid end to end finds exactly those, wherever they start and whatever follows the end slot |
| `ExfatWalk.DirectoryRoundTrip` | scripts/exfatimg.py:270-292 | for every sequence of files the walk over the directory of them returns every name and extent, every set sealed |
| `ExfatWalk.Restream` | scripts/exfatimg.py:98-113 | in place, the chosen set's bytes become their changed and sealed form and no other byte changes |
| `ExfatWalk.RestreamOnly` | scripts/exfatimg.py:98-113 | the walk sees that set changed and sealed, its name and every other set as they were |
| `ExfatWalk.ChangedExtent` | scripts/exfatimg.py:98-113 | its extent is what was asked for, and what it was where nothing was |
| `Fat32Chain.ClusterEnd` | scripts/fat32img.py:45-50 | one past the last cluster never passes what a FAT copy describes nor the bad-cluster mark |
| `Fat32Chain.InHeapIff` | scripts/fat32img.py:45-53 | a cluster is of the heap if and only if all its sectors are in the volume, its entry is in the FAT, and it is no mark |
| `Fat32Chain.Chain` | scripts/fat32img.py:64-95 | raises for a loop if and only if the walk cycles in the heap, and for a short read if and only if it comes to a cluster whose entry the image does not hold; else the walk without repeats, up to the first link outside the heap |
| `Fat32Chain.Fat32.ChainOf` | scripts/fat32img.py:86-95 | through the copy asked for, the live one by default, and the volume's own cluster end |
| `Fat32Chain.CyclesGoOn` | scripts/fat32img.py:86-95 | a walk that comes back once never leaves the heap |
| `Fat32Chain.Fat32.SetEntry` | scripts/fat32img.py:73-84 | every copy when mirrored, the live one alone when not, top four bits kept, nothing else changed; raises exactly past the FAT, or at a copy past the end of the volume |
| `Fat32Chain.Fat32.constructor` | scripts/fat32img.py:39-50 | which copy is live, and whether all are kept alike, from the flags |
| `Fat32Chain.EntrySet` | scripts/fat32img.py:64-84 | in every copy written the entry reads back, under the bits that were there |
| `Fat32Chain.MergedBack` | scripts/fat32img.py:73-84 | the entry reads back, under the bits that were there |
| `Fat32Chain.OffThePath` | scripts/fat32img.py:73-95 | a chain that never comes to the changed cluster is the same chain |
| `MbrDisk.LayOut` | scripts/mbrdisk.py:77-84 | each partition's start and the disk's length; None past four partitions or past 32 bits |
| `MbrDisk.Apart` | scripts/mbrdisk.py:77-84 | partitions are 1 MiB aligned, pairwise disjoint, inside the disk and clear of the MBR |
| `MbrDisk.Assemble` | scripts/mbrdisk.py:71-94 | the disk holds every entry and every payload in its place, zeros everywhere else, and its signature |
| `MbrDisk.Entries` | scripts/mbrdisk.py:104-118 | the loop reads the used entries, None for no MBR or a protective one |
| `MbrDisk.EntriesBack` | scripts/mbrdisk.py:104-118 | `entries` of the disk `assemble` writes is exactly the layout: the used ones, or None when one is of type 0xEE; and its signature is what its bytes give |
| `MbrDisk.BootBack` | scripts/mbrdisk.py:56-60 | on that disk only a partition laid out bootable is marked so |
| `MbrDisk.PayloadBack` | scripts/mbrdisk.py:86-89 | each payload reads back from that disk where its entry says |
| `MbrDisk.SigningKeeps` | scripts/disksig.py:100-112 | signing disturbs no entry and nothing past sector 0, and reads back |
| `MbrDisk.SignatureFixed` | scripts/disksig.py:51-76 | a signature taken from the bytes does not depend on the one already there |
| `MbrDisk.NeverGpt` | scripts/disksig.py:87-96 | an assembled disk is never taken for a GPT one |
| `MbrDisk.OneDiskRecognised` | scripts/bootstick.py:160-169 | the one-disk layout, signed, is recognised if and only if neither payload is empty, with both partitions where they are |
| `MbrBytes.OneDiskIff` | scripts/bootstick.py:160-169 | any sector: recognised if and only if it is an MBR, no slot a GPT's, whose first slot is a FAT's and second ext2's, both of some length |
| `MbrBytes.EntriesAre` | scripts/mbrdisk.py:104-119 | the entries of any sector are its used slots in order, none when it is no MBR |
| `MbrBytes.StartLeast` | scripts/mbrdisk.py:51-85 | the first partition is at 1 MiB, each after it at the least 1 MiB boundary past the one before |
| `MbrBytes.AssembledSays` | scripts/mbrdisk.py:56-94 | each entry's sixteen bytes on the assembled disk |
| `MbrBytes.AssembledElse` | scripts/mbrdisk.py:85-94 | every byte that is no entry's, payload's, mark or signature is zero |
| `MbrBytes.AssembledSigned` | scripts/disksig.py:51-76 | the signature is the digest's first four bytes, of the disk with bytes 440 to 443 zero, 0 made 1 |
| `ResolveSums.Evaluate` | scripts/check-wire-constants.py:107-120 | a sum's value, exactly when every term is known |
| `ResolveSums.Resolve` | scripts/check-wire-constants.py:100-124 | terminates with exactly the names that resolve, whatever the sums; with distinct names the map is the least closed under them, every value accounted for |
| `ResolveSums.ResolvedIff` | scripts/check-wire-constants.py:100-124 | a sum is resolved if and only if all its terms are, and to their sum |
| `ResolveSums.TotalOne` | scripts/check-wire-constants.py:107-121 | a literal is its value, a name what it stands for, and a blank term never known |
| `ResolveSums.TotalSplits` | scripts/check-wire-constants.py:107-121 | a sum is the sum of its parts |
| `ResolveSums.OrderFree` | scripts/check-wire-constants.py:100-124 | the result does not depend on the order of the input list |

## Left out

- Sockets, timeouts, RST and FIN, threads and external programs: a frame, a disk, a tree is a value, and a call outside is a step that may fail.
- SHA-512, HMAC and X25519 themselves; the ephemerals' derivation from clock and entropy.
- The byte form of a keyed frame and of a sealed reply: a tag is a value beside its message, a frame shorter than its header is one case.
- `--misbehave`, `send_keyed_raw` and every rig, gate and self-test: drivers, not protocol.
- Protocol.ReturnedIsAnswer: the returned bytes are compared undecoded; `Protocol.ReturnedDecodes` decodes them, for a status below 2^64, as packing one into a frame demands.
- Np: the printed log lines; a fid on a path of neither table, which no history reaches (`Np.HistoryTidy`); the server started again after it ended.
- PlanMerge: commands are values, not debugfs text; quoting enters only as which paths and sources can be said.
- StickWrite: the user's own `dd` of a kept image, or its deletion; the hashes compared at read-back are the bytes compared; the disk's size is whole sectors, the tail's last MiB 2048 of them.
- StickWrite.NothingLost: does not say that a kept image holds the old disk's /etc and /Users, which is what building it does (`PlanMerge.Plan` for the tree).
- `classify`, `esp_with_bootid`, `bootid_value`, `fat32_find`, `fat_metadata` and the option rules of `scripts/bootstick.py`: lookups and patches with no law between them.
- ExfatWalk: the conversion between text and UTF-16, so `decode(..., "replace")` of a malformed name; `find`, `fold` and `root_end`, each one pass over what `Sets` or the end slot gives.
- Fat32Chain: directory listings, `locate`, `set_first` and reading a file's clusters.
- MbrDisk: `set_entry`, one entry written as `Assemble` writes it; writing the file itself.
- ResolveSums.Resolve: with two sums of one name that disagree says which names resolve, not to what; the script keeps the last it evaluates.
- ResolveSums: the regular expressions and the split at `+`: an expression is its terms; `_resolve_ors`, one pass of the same kind.
- `scripts/exfatimg.py`'s volume walks, `scripts/gen-curve-vectors.py`, the other check, vector and image scripts: thin wrappers, constants and text matching.
