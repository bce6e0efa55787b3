# A verified model of kernel crypto, random, audio and softraid cores

This project models the hardest algorithms of an OpenBSD kernel source tree and proves what they are
for. Each part follows the form of its C code: contexts, rings and tables that the C changes in place are
classes and arrays with methods proved against specification functions; the properties are lemmas about
those functions.

- **Scatter/gather crypto** (`Iovecs`, `Modes`, `EncDec`, `StoredIv`, `Xforms`, `Hmac`, `Engine`): `swcr_encdec` over a list of
  memory ranges refines the mode on one flat string, and HMAC from cached contexts refines RFC 2104. Memory
  is one array, an iovec a range of it, and the chaining pointer an array with an offset, so that it can alias
  the data as in the source.
- **Hashes and block functions** (`Sha2Transform`, `Sha2Stream`, `Sha2Instances`, `Sha2Logic`, `Sha2Constants`,
  `Ghash`, `GhashWords`, `GhashPolynomial`, `KeyWrap`, `Des`, `DesWords`): fast forms against the standards' definitions, round trips, and the algebra
  behind GHASH.
- **Random numbers** (`EntropyPool`, `PoolWords`, `PoolRegister`, `Keystream`, `Reseeding`, `IdGen`): reversible mixing, a keystream whose
  bytes are used once and wiped, identifiers that do not repeat.
- **Audio DMA** (`AudioRing`, `AudioIntr`, `AudioDevice`, `AudioParams`): mutually recursive interrupt handlers,
  an unlocked writer and reader, block size arithmetic.
- **Software RAID** (`Softraid`, `Raid0`, `Concat`): incremental request splitting against the direct map.

`Bytes`, `Endian` and `Division` hold shared arithmetic. Division is by repeated subtraction there, with lemmas that
it agrees with `/`, `%` and `*`.

Where an operation depends on something the model keeps abstract, that thing is a parameter constrained by
stated laws: block ciphers are permutations, the DES and identifier round functions are arbitrary, ChaCha is
a function from key and position to a byte, the all-zero context before the first key being a key of its own. Word operations are parameters too where the proof needs only
laws of them (SHA-2, pool, DES), and the actual words are then shown to meet the laws. Clocks, entropy, fresh
randomness and what hardware answers are parameters of the operations that use them.

Some properties one might expect are false of the code; the model keeps the code and proves the exact
condition:

- the hash callback takes a 16-bit length, so `cuio_apply` hashes the whole slice if and only if every piece
  is shorter than 65536 octets (`Hmac.FedWholeIff`, `Hmac.TextIsSlice`; it fails at `Hmac.LongPieceLost`);
- the pool keeps different inputs of one length apart if and only if they are no longer than the pool
  (`EntropyPool.InputsApartIff`; beyond it `EntropyPool.Collision` finds two);
- the entropy of a reseed decides the next key unless the first request of all comes just after it, which takes its key
  from the wiped buffer (`Reseeding.KeyAfterReseed`, `Reseeding.EntropyDecides`; it is lost at `Reseeding.EntropyLost`,
  and never after a reseed of an initialised generator, `Reseeding.InitializedStays`);
- a writer's reserved range is still the ring's end if and only if the underruns since are a multiple of the
  number of blocks (`AudioIntr.ReservationCurrentIff`, `AudioIntr.ReservationLost`), and what a reader copied is
  what it discards under the same condition on overruns (`AudioIntr.ReadCurrentIff`, `AudioIntr.ReadLost`);
- a play interrupt needs a whole block ready, which the write and drain paths see to but `audio_read` in full
  duplex does not (`AudioRing.PlayNeedsBlock`, `AudioRing.PlayUnderfed`, `AudioDevice.Device.Start`); the record
  ring stays within its size if and only if it holds whole blocks (`AudioRing.RecNeedsWholeBlocks`,
  `AudioDevice.RecorderInsideIff`; after a read of part of a block it fails at `AudioRing.RecOverfills`);
- for hardware rates below 1000 the block size can be zero (`AudioParams.SetPar`,
  `AudioParams.SlowRateDividesByZero`);
- the RAID range test lets one sector too many through (`Softraid.AcceptsIff`, `Softraid.AcceptsTooMuch`), which
  takes `sr_concat_rw` to a chunk that does not exist (`Concat.RwAccepted`) and `sr_raid0_rw` behind the strips of
  its first chunk (`Raid0.AcceptedLeavesChunkIff`).

`dafny verify dfyconfig.toml` checks the whole project.

## Model

| member | source | states |
|---|---|---|
| `Iovecs.CopyData` | crypto/criov.c:34-65 | Copies out the flat slice `off..off+len` of any list of iovecs, and panics exactly when the slice is not inside them; memory is untouched |
| `Iovecs.CopyBack` | crypto/criov.c:67-99 | Overwrites exactly that flat slice with the given octets, leaves every octet outside it alone, and panics exactly when it does not fit |
| `Iovecs.GetPtr` | crypto/criov.c:101-124 | Finds the iovec and offset of a flat position (skipping empty iovecs), the end position included; fails exactly outside the buffer |
| `Iovecs.PatchInside` | crypto/cryptosoft.c:357-396 | Storing into one iovec changes the flat view at the matching flat position and nowhere else, for disjoint iovecs |
| `Iovecs.PatchExtends` | crypto/cryptosoft.c:290-411 | Two adjacent patches are one patch of the joined data: progress over whole runs composes |
| `Modes.RunInverts` | crypto/cryptosoft.c:298-333 | Decrypting a whole encrypted string from the same starting state restores it and ends in the same state, for CBC and for stateful xforms |
| `Modes.ReinitAfterRun` | crypto/cryptosoft.c:145-152 | However much was encrypted since, `reinit` with an IV leads back to the same key state |
| `Modes.KeyStateKept` | crypto/cryptosoft.c:298-333 | An xform without `reinit` never changes its key state |
| `Modes.RunBlock` | crypto/cryptosoft.c:361-390 | The output block at any block position is one step from the state its predecessors lead to |
| `Modes.CbcChain` | crypto/cryptosoft.c:318-333 | The chaining value after any run is the last ciphertext block, or the IV before the first block |
| `Modes.CbcEncryptsBlock` | crypto/cryptosoft.c:305-318 | Section 6.2 of NIST SP 800-38A: ciphertext block j is E(P(j) xor C(j-1)), C(0) the IV, for every block |
| `Modes.CbcDecryptsBlock` | crypto/cryptosoft.c:319-333 | Section 6.2 of NIST SP 800-38A: plaintext block j is D(C(j)) xor C(j-1), for every block |
| `EncDec.CryptBlock` | crypto/cryptosoft.c:298-333 | One block in a buffer, with a chaining pointer that may point into the same memory, is one step of the mode, and the pointer that comes back holds the next chaining value |
| `EncDec.BounceBlock` | crypto/cryptosoft.c:290-356 | A block that straddles iovecs, crypted in the bounce buffer and copied back, keeps the loop invariant: the data done so far is the flat mode of the data so far |
| `EncDec.InPlaceBlock` | crypto/cryptosoft.c:357-396 | A block crypted in place, with the chaining pointer left inside the data, keeps the same invariant |
| `EncDec.InPlaceRun` | crypto/cryptosoft.c:357-396 | The inner loop crypts all whole blocks left in the iovec and stays aligned with the flat position |
| `EncDec.StraddlingBlock` | crypto/cryptosoft.c:290-356 | After a straddling block the cursor is found again at (start of its iovec) + k = flat position |
| `EncDec.CryptLoop` | crypto/cryptosoft.c:285-411 | The whole loop terminates and has applied the mode to the flat slice, changing no other octet |
| `EncDec.PrepareIv` | crypto/cryptosoft.c:123-143 | The IV used is the explicit, the drawn or the stored one; it is written back exactly when encrypting without a present IV; panics exactly when its place is outside the buffer |
| `EncDec.SwcrEncDec` | crypto/cryptosoft.c:99-414 | For every split into disjoint iovecs: succeeds if and only if the length is a whole number of blocks and all ranges are inside; then the slice is the flat mode of the slice, nothing else changed, and the key state is the mode's |
| `EncDec.CryptSlice` | crypto/cryptosoft.c:123-143 | With an explicit and present IV the mode runs from that IV, for every draw, and the buffer changes in the slice alone |
| `EncDec.RoundTripAcrossFragmentations` | crypto/cryptosoft.c:145-411 | Encrypting under one fragmentation and decrypting the same flat octets under any other, from the key state left behind, restores the plaintext |
| `EncDec.EncryptCarryDecrypt` | crypto/cryptosoft.c:99-414 | End to end with an explicit IV, whatever is drawn: encrypt in one buffer, carry the octets to another split up differently, decrypt there in the same session; it succeeds exactly when length and ranges fit both, and then the plaintext is back |
| `EncDec.StateRecovers` | crypto/cryptosoft.c:145-152 | A second request with the same IV starts from the same state as the first |
| `EncDec.CbcRequest` | crypto/cryptosoft.c:298-333 | In a CBC request the first block is chained to the request IV and every other one to the ciphertext block before it |
| `StoredIv.EncryptStoring` | crypto/cryptosoft.c:123-143 | Without a present IV, encryption leaves the IV used, explicit or drawn, at its place and the mode of the data from that IV in the slice |
| `StoredIv.DecryptStored` | crypto/cryptosoft.c:134-142 | Without an explicit IV, decryption runs from the IV found at its place |
| `StoredIv.EncryptCarryDecryptStored` | crypto/cryptosoft.c:99-414 | End to end with a stored IV: encrypt, carry IV and data, two disjoint ranges, to another fragmentation, decrypt with the IV found there; the plaintext is back for every IV given or drawn, exactly when length and all four ranges fit |
| `Xforms.CbcXformValid` | crypto/xform.c:366-376 | Any block permutation gives a CBC xform that inverts and keeps its key state |
| `Xforms.BumpCounts` | crypto/xform.c:487-504 | The octet-wise carry is addition of one modulo 2^32 on the counter field, and nonce and IV are untouched |
| `Xforms.AesCtrCrypt` | crypto/xform.c:487-504 | The in-place counter increment and masking is the CTR step on counter block and data |
| `Xforms.CtrXformValid` | crypto/xform.c:462-504 | CTR decryption is its own inverse block by block, and `reinit` forgets counter and earlier IVs but keeps the nonce |
| `Xforms.CtrMasksBlock` | crypto/xform.c:487-504 | In a whole run, block n is the data masked with the encryption of the starting counter block stepped n + 1 times |
| `Xforms.CtrBlockCounts` | crypto/xform.c:462-504 | The counter after n blocks is the starting counter plus n modulo 2^32, and the first twelve octets never change |
| `Xforms.CtrBlocksDiffer` | crypto/xform.c:462-504 | Within 2^32 blocks no two counter blocks are equal |
| `Xforms.CtrMasksDiffer` | crypto/xform.c:462-504 | So within 2^32 blocks no two masks are equal, the cipher being a permutation |
| `Xforms.AesCtrRun` | crypto/xform.c:462-504 | The block equation of CTR for the actual xform, in every run |
| `Xforms.DoubleTimesX` | crypto/xform.c:546-572 | Tweak doubling is multiplication by x in GF(2^128), coefficient by coefficient |
| `Xforms.DoubleInPlace` | crypto/xform.c:558-571 | The carry loop with its conditional feedback computes the doubled tweak |
| `Xforms.AesXtsCrypt` | crypto/xform.c:545-572 | Mask, crypt, mask and double in place is the XTS step on tweak and data |
| `Xforms.XtsXformValid` | crypto/xform.c:523-584 | XTS decryption inverts encryption from the same tweak, and `reinit` derives the tweak from the IV alone |
| `Xforms.XtsTweaksBlock` | crypto/xform.c:545-584 | In a whole run, block n is C(P xor T) xor T, T the starting tweak doubled n times |
| `Xforms.AesXtsRun` | crypto/xform.c:523-584 | The block equation of XTS for the actual xform, in every run |
| `Des.HalfTwice` | crypto/des_locl.h:89-101 | A Feistel half round on exchanged words undoes itself, for any S-boxes and key |
| `Des.RoundsInverse` | crypto/ecb_enc.c:103-115 | The sixteen rounds in the other direction, on exchanged words, take the rounds back |
| `Des.EncIsFeistel` | crypto/ecb_enc.c:103-109 | The rounds that take turns at the two words are the textbook network with round keys in order, for every number of rounds |
| `Des.CoreInverse` | crypto/ecb_enc.c:128-177 | `des_encrypt2` decrypts what it encrypts and encrypts what it decrypts |
| `Des.SingleInverse` | crypto/ecb_enc.c:75-126 | `des_encrypt` decrypts what it encrypts, for all key schedules and blocks |
| `Des.TripleIsEde` | crypto/ecb3_enc.c:52-76 | One initial and one final permutation around three cores equals three full DES operations in EDE order |
| `Des.TripleInverse` | crypto/ecb3_enc.c:52-76 | With key order and direction reversed, triple DES is undone |
| `Des.BlockRoundTrip` | crypto/des_locl.h:79-87 | Loading and storing the two words of a block are inverse both ways |
| `Des.Des3Inverse` | crypto/xform.c:366-376 | `des3_decrypt` inverts `des3_encrypt` on octets, both ways |
| `Des.Des3IsEde` | crypto/xform.c:366-376 | `des3_encrypt` encrypts with key 1, decrypts with key 2, encrypts with key 3, octets to octets; `des3_decrypt` is the reverse |
| `Des.Des3IsPermutation` | crypto/xform.c:366-376 | 3DES is a block permutation, so every CBC result applies to it |
| `Des.RunRounds` | crypto/ecb_enc.c:103-115 | The unrolled-by-two loops, forwards and backwards through the schedule, compute the sixteen rounds |
| `Des.DesEncrypt` | crypto/ecb_enc.c:75-126 | The in-place word pair becomes the DES permutation of the old pair |
| `Des.DesEncrypt2` | crypto/ecb_enc.c:128-177 | The same without initial and final permutation |
| `Des.DesEcb3Encrypt` | crypto/ecb3_enc.c:52-76 | The block in memory becomes the merged triple DES of the old block |
| `DesWords.IpFp` | crypto/des_locl.h:139-161 | The five bit exchanges of IP and those of FP are inverse permutations, both ways |
| `DesWords.LoadWordLow` | crypto/des_locl.h:79-87 | The first octet of a word in memory is its lowest |
| `DesWords.IpMovesColumns` | crypto/des_locl.h:103-151 | Where the five exchanges of IP take every bit, for all rows and columns of the block as an 8 by 8 matrix of bits: columns become octets, odd ones in the first word and even ones in the second |
| `DesWords.DesOpsValid` | crypto/des_locl.h:79-161 | The 32-bit operations meet every law used, whatever the round function |
| `DesWords.Des3CbcValid` | crypto/xform.c:366-376 | 3DES on real words is a permutation of 8-octet blocks |
| `Sha2Transform.RingExpands` | crypto/sha2.c:386-400 | The expression on the 16-word ring is the next word of the full schedule |
| `Sha2Transform.RingStep` | crypto/sha2.c:386-400 | Overwriting one slot keeps the ring holding exactly the last sixteen schedule words |
| `Sha2Transform.TransformRolled` | crypto/sha2.c:349-421 | The rolled transform, registers shifting, computes the compression function with the full schedule (section 6.2.2 of FIPS 180-4) |
| `Sha2Transform.RoundRenamed` | crypto/sha2.c:269-287 | One round with renamed registers is the textbook round up to renaming |
| `Sha2Transform.EightRounds` | crypto/sha2.c:307-318 | Eight renamed rounds bring the register names round and equal eight textbook rounds |
| `Sha2Transform.TransformUnrolled` | crypto/sha2.c:291-345 | The unrolled transform computes the same compression function |
| `Sha2Instances.Sha256Block` | crypto/sha2.c:291-421 | With the SHA-256 functions and constants, both versions compute the compression the stream folds |
| `Sha2Instances.Sha512Block` | crypto/sha2.c:570-701 | The same for SHA-512, eighty rounds of 64-bit words |
| `Sha2Instances.Load32Octets` | crypto/sha2.c:270-271 | The octets of a schedule word, high octet first, are those of the block |
| `Sha2Instances.Load64Octets` | crypto/sha2.c:546-549 | The same for 64-bit words |
| `Endian.NumberWrites` | crypto/sha2.c:509-511 | Writing out the number of a string of octets gives the string back, for every string |
| `Sha2Logic.ChChooses32` | crypto/sha2.c:128-129 | Ch takes y where x has ones and z elsewhere |
| `Sha2Logic.MajIsMajority32` | crypto/sha2.c:128-129 | Maj is the majority of its three arguments, in every bit |
| `Sha2Logic.ChChooses64` | crypto/sha2.c:128-129 | Ch for 64-bit words |
| `Sha2Logic.MajIsMajority64` | crypto/sha2.c:128-129 | Maj for 64-bit words |
| `Sha2Logic.BigSigma0Adds32` | crypto/sha2.c:132-132 | Each bit of the result is the sum of the three bits of the word that the standard names |
| `Sha2Logic.BigSigma1Adds32` | crypto/sha2.c:133-133 | Each bit of the result is the sum of the three bits of the word that the standard names |
| `Sha2Logic.SmallSigma0Adds32` | crypto/sha2.c:134-134 | Each bit of the result is the sum of the three bits of the word that the standard names |
| `Sha2Logic.SmallSigma1Adds32` | crypto/sha2.c:135-135 | Each bit of the result is the sum of the three bits of the word that the standard names |
| `Sha2Logic.BigSigma0Adds64` | crypto/sha2.c:138-138 | Each bit of the result is the sum of the three bits of the word that the standard names |
| `Sha2Logic.BigSigma1Adds64` | crypto/sha2.c:139-139 | Each bit of the result is the sum of the three bits of the word that the standard names |
| `Sha2Logic.SmallSigma0Adds64` | crypto/sha2.c:140-140 | Each bit of the result is the sum of the three bits of the word that the standard names |
| `Sha2Logic.SmallSigma1Adds64` | crypto/sha2.c:141-141 | Each bit of the result is the sum of the three bits of the word that the standard names |
| `Sha2Logic.ChOnBits32` | crypto/sha2.c:128-128 | The function on words is the one on their bits |
| `Sha2Logic.MajOnBits32` | crypto/sha2.c:129-129 | The function on words is the one on their bits |
| `Sha2Logic.BigSigma0OnBits32` | crypto/sha2.c:132-132 | The function on words is the one on their bits |
| `Sha2Logic.BigSigma1OnBits32` | crypto/sha2.c:133-133 | The function on words is the one on their bits |
| `Sha2Logic.SmallSigma0OnBits32` | crypto/sha2.c:134-134 | The function on words is the one on their bits |
| `Sha2Logic.SmallSigma1OnBits32` | crypto/sha2.c:135-135 | The function on words is the one on their bits |
| `Sha2Logic.Sha256Tables` | crypto/sha2.c:291-345 | SHA-256 works with these functions, its table, loads, addition of words and number of rounds, each in its place |
| `Sha2Logic.ChOnBits64` | crypto/sha2.c:128-128 | The function on words is the one on their bits |
| `Sha2Logic.MajOnBits64` | crypto/sha2.c:129-129 | The function on words is the one on their bits |
| `Sha2Logic.BigSigma0OnBits64` | crypto/sha2.c:138-138 | The function on words is the one on their bits |
| `Sha2Logic.BigSigma1OnBits64` | crypto/sha2.c:139-139 | The function on words is the one on their bits |
| `Sha2Logic.SmallSigma0OnBits64` | crypto/sha2.c:140-140 | The function on words is the one on their bits |
| `Sha2Logic.SmallSigma1OnBits64` | crypto/sha2.c:141-141 | The function on words is the one on their bits |
| `Sha2Logic.Sha512Tables` | crypto/sha2.c:570-621 | SHA-512 works with these functions, its table, loads, addition of words and number of rounds, each in its place |
| `Sha2Constants.K512Roots` | crypto/sha2.c:187-228 | Every round constant of SHA-512 is the fraction of the cube root of its prime, in 64 bits |
| `Sha2Constants.K256Roots` | crypto/sha2.c:155-172 | Every round constant of SHA-256 is that fraction in 32 bits |
| `Sha2Constants.Coarser` | crypto/sha2.c:155-172 | Fewer digits of a cube root are the cube root in coarser units: how the two tables hang together |
| `Sha2Constants.Sha256Start` | crypto/sha2.c:175-184 | The starting value is the fractions of the square roots of the first eight primes |
| `Sha2Constants.Sha512Start` | crypto/sha2.c:243-252 | The same in 64 bits |
| `Sha2Constants.Sha384Start` | crypto/sha2.c:231-240 | Those of the next eight primes |
| `Sha2Stream.PaddedLength` | crypto/sha2.c:472-512 | The padded message is a whole number of blocks |
| `Sha2Stream.PaddingIsLeast` | crypto/sha2.c:472-512 | No shorter run of zeros reaches a whole number of blocks |
| `Sha2Stream.CountGivesUsed` | crypto/sha2.c:434-435 | The low word of the bit count gives the fill level of the buffer even after wrapping |
| `Sha2Stream.CountAdds` | crypto/sha2.c:104-109 | ADDINC128 is 128-bit addition: the carry is right for every count and length |
| `Sha2Stream.Context.Update` | crypto/sha2.c:425-470 | After any update the context is what absorbing the concatenation of everything leads to (also for SHA512Update) |
| `Sha2Stream.Context.PadBuffer` | crypto/sha2.c:482-508 | Mark and zeros, through an extra block when there is no room, extend the tail to the padded message without its count |
| `Sha2Stream.Context.SetCount` | crypto/sha2.c:478-511 | The count stored is the bit length big-endian, in 64 or in two-word 128 bits |
| `Sha2Stream.Context.Final` | crypto/sha2.c:472-528 | The result is the compression function folded over the padded message (sections 5.1.1 and 5.1.2 of FIPS 180-4), and the context is wiped |
| `Sha2Stream.DigestChunks` | crypto/sha2.c:705-795 | For every chunking, Init, Updates and Final give the one-shot hash of the whole message |
| `Sha2Instances.Sha256Digest` | crypto/sha2.c:425-528 | The 32 octets of SHA-256 for any chunking are the one-shot hash, words big-endian in order |
| `Sha2Instances.Sha512Digest` | crypto/sha2.c:705-817 | The same for SHA-512 |
| `Sha2Instances.Sha384Digest` | crypto/sha2.c:821-855 | The same for SHA-384: its own start, the first six words |
| `Sha2Instances.OctetsAt` | crypto/sha2.c:515-524 | Every word of the state has its place in the digest |
| `Hmac.Session.constructor` | crypto/cryptosoft.c:851-886 | The cached contexts have absorbed exactly the two padded masked keys of section 2 of RFC 2104, and the caller's key is restored |
| `Hmac.FedShort` | crypto/xform.c:606-646 | Pieces shorter than 65536 octets reach the hash unchanged, in order, for every split |
| `Hmac.FedWholeIff` | crypto/xform.c:606-646 | The slice reaches the hash whole if and only if every piece is shorter than 65536 octets |
| `Hmac.LongPieceLost` | crypto/xform.c:606-646 | One iovec of 65536 octets: none of them reaches the hash |
| `Hmac.ApplyUpdate` | crypto/criov.c:126-166 | `cuio_apply` feeds exactly the (truncated) pieces of the slice, in order, and panics exactly when the slice is not inside the buffer |
| `Hmac.AuthCompute` | crypto/cryptosoft.c:428-464 | The MAC from the cached contexts is RFC 2104 HMAC of what was fed and the optional sequence number |
| `Hmac.TextIsSlice` | crypto/cryptosoft.c:438-450 | That text is the flat slice followed by the sequence number if and only if all pieces are short |
| `Engine.TripleDesRoundTrip` | crypto/cryptosoft.c:99-414 | Encrypt, carry over to another fragmentation, decrypt: the plaintext is back with 3DES-CBC on real words, exactly when length and ranges fit |
| `Engine.AesCtrRoundTrip` | crypto/cryptosoft.c:99-414 | The same with AES-CTR |
| `Engine.AesXtsRoundTrip` | crypto/cryptosoft.c:99-414 | The same with AES-XTS |
| `Engine.AesCtrRequest` | crypto/xform.c:462-504 | Block n of a request is masked with the encryption of nonce, IV and n + 1 in four octets big-endian (section 4 of RFC 3686) |
| `Engine.AesXtsRequest` | crypto/xform.c:523-584 | Block n of a request is enciphered under the encryption of IV and eight zero octets, doubled n times |
| `Engine.HmacSha256` | crypto/cryptosoft.c:417-490 | A session keyed and used gives SHA-256(key xor 5c.., SHA-256(key xor 36.., text)), 32 octets, of the whole slice if and only if every piece is shorter than 65536 octets |
| `Engine.HmacWrittenOut` | crypto/cryptosoft.c:428-464 | The HMAC of RFC 2104 for SHA-256, written out in octets |
| `EntropyPool.MixInverse` | dev/rnd.c:422-444 | One word mixed in can be taken out again: taps never touch the slot written, and the twist is injective |
| `EntropyPool.UnmixInverse` | dev/rnd.c:422-444 | And mixing in undoes taking out |
| `EntropyPool.MixAllBijective` | dev/rnd.c:160-166 | For every fixed input the mixing is a bijection on (pool, pointer, rotation), both inverses given |
| `EntropyPool.SlotKept` | dev/rnd.c:422-444 | A slot keeps its word until the pointer comes round to it |
| `EntropyPool.DifferentInputsDiffer` | dev/rnd.c:154-158 | From any state, different inputs of equal length up to POOLWORDS leave different pools |
| `EntropyPool.SteerReaches` | dev/rnd.c:413-446 | Any pool contents can be reached with one word per slot |
| `EntropyPool.Collision` | dev/rnd.c:413-446 | For every longer length there are two inputs that leave the same state |
| `EntropyPool.InputsApartIff` | dev/rnd.c:154-158 | Inputs of length n are kept apart if and only if n is at most POOLWORDS |
| `EntropyPool.Entropy.AddEntropyWords` | dev/rnd.c:413-446 | The loop over the global pool is the whole-buffer mixing, and its inverse recovers the old state |
| `PoolRegister.MixComesIn` | dev/rnd.c:422-447 | What is written is the twist of the rotated input and the words written 1, 411, 819, 1231, 1638 and 2048 steps before |
| `PoolRegister.MixMovesOn` | dev/rnd.c:425-426 | All other words of the register are one step older |
| `PoolRegister.RotationAfter` | dev/rnd.c:427-434 | The input rotation goes up by seven with every word, and by seven more when the pointer passes the first one |
| `PoolRegister.PassRotates` | dev/rnd.c:427-434 | After a whole pass over the pool, words come in seven bits further round |
| `PoolWords.UntwistInverse` | dev/rnd.c:416-420 | The CRC twist step is a bijection of 32-bit words (with `PoolWords.TwistInverse`) |
| `PoolWords.TwistIsCrc` | dev/rnd.c:417-420 | The table-driven twist is three steps of the CRC-32 shift register |
| `PoolWords.RotateIsShifts` | dev/rnd.c:423-424 | The rotation is the pair of shifts of the source, for every count from zero to 31 |
| `PoolWords.WordsValid` | dev/rnd.c:416-444 | Xor, rotation (by zero included) and twist meet the laws asked of pool words |
| `PoolWords.PoolPreservesEntropy` | dev/rnd.c:154-166 | The claims of the design comment hold of the actual 32-bit mixing |
| `Keystream.NoneTwice` | dev/rnd.c:629-682 | An ordered history of (fill, offset) pairs names no keystream byte twice |
| `Keystream.DrawKeepsOrder` | dev/rnd.c:659-666 | Taking the next bytes of the buffer keeps the history ordered and clear of the bytes that rekey |
| `Keystream.KeyedOn` | dev/rnd.c:636-647 | A refill extends the chain of seeds: the next seed is the head of the keystream of this one with the data mixed in |
| `Keystream.Generator.Rekey` | dev/rnd.c:629-649 | One fill more, made from the current seed; its first 40 bytes (data mixed in) become the seed and are wiped, the rest is available |
| `Keystream.Generator.Seed` | dev/rnd.c:575-585 | A reseed makes a fill with the data mixed in, wipes all of it and allows 1600000 bytes |
| `Keystream.Generator.BootSeed` | dev/rnd.c:619-622 | The first request keys the cipher from the head of the buffer: the boot loader's bytes, or zeros if the buffer was used before |
| `Keystream.Generator.RandomStart` | dev/rnd.c:794-796 | Start-up marks the generator initialised, seeded or not, and reseeds |
| `Keystream.Generator.StirIfNeeded` | dev/rnd.c:616-627 | Boots, reseeds exactly when the request reaches the remaining count, or counts down; says what that does to seed chain, buffer and count in each case |
| `Keystream.Generator.Take` | dev/rnd.c:659-666 | The bytes copied out are the next undelivered ones of the last fill, and are wiped |
| `Keystream.Generator.RandomBuf` | dev/rnd.c:651-670 | Terminates fully served, byte for byte the keystream of the fills drawn from, which grow by unmixed fills after at most one reseed |
| `Keystream.Generator.RandomU32` | dev/rnd.c:672-682 | The same for one word |
| `Keystream.AskedUnderLimit` | dev/rnd.c:584-584 | Over any events, what is asked for after a reseed and before the next totals less than 1600000 (2^30 after boot) |
| `Keystream.RunAll` | dev/rnd.c:567-682 | Every run of a fresh generator: all requests served; no byte of any fill delivered twice and none of the 40 that rekey; delivery is in the order of the fills, an event's bytes being of fills made by its end and none older than the last one before it, after a reseed only of later ones; each fill's seed follows from the fill before it, with exactly the reseeds' entropy mixed in; outside the undelivered bytes the buffer is zero; requests between reseeds under the limit |
| `Keystream.ServedOn` | dev/rnd.c:651-682 | An event whose bytes come from fills it may serve from extends the order of delivery |
| `Reseeding.KeyIsMasked` | dev/rnd.c:636-646 | The next key is the head of the keystream masked with the data, filled up with zeros |
| `Reseeding.KeysEqualIff` | dev/rnd.c:636-646 | From one key, two lots of data lead to the same next key if and only if their first 40 bytes, zeros filled in, are equal |
| `Reseeding.KeyAfterReseed` | dev/rnd.c:575-646 | In every run, the fill after a reseed is made from the key the reseed's entropy led to, or from zeros if the first request comes just then |
| `Reseeding.EntropyDecides` | dev/rnd.c:575-646 | Two runs that reach a reseed with the same key go on with the same key if and only if the heads of the entropy drawn there are equal |
| `Reseeding.InitializedStays` | dev/rnd.c:616-627 | After a reseed of an initialised generator the key stays in use |
| `Reseeding.RestartIsBoot` | dev/rnd.c:616-627 | Only the first request takes the buffer's head for a key |
| `Reseeding.EntropyLost` | dev/rnd.c:616-627 | A generator stirred before its first request is keyed with zeros by it, whatever the entropy |
| `IdGen.RoundTwice` | crypto/idgen.c:92-98 | Every round of the unbalanced network undoes itself, for any round function |
| `IdGen.RoundsAreWords` | crypto/idgen.c:75-100 | The halves after any number of rounds are two terms in a row of one recurrence, each the term before last masked by the last |
| `IdGen.PermuteBijective` | crypto/idgen.c:82-101 | The 31 rounds are a bijection on 31-bit words, both inverses given |
| `IdGen.PermuteLoop` | crypto/idgen.c:82-101 | The doubled-up loop with the odd last round computes that permutation |
| `IdGen.InputOffset` | crypto/idgen.c:126-132 | The random offset is where the count starts from |
| `IdGen.LowBitsApart` | crypto/idgen.c:131-132 | Different counts below 2^31 of one key give different low bits |
| `IdGen.PeriodsRise` | crypto/idgen.c:103-136 | Periods never fall, the count goes up under one key while one lasts, and the top bit alternates with them |
| `IdGen.PeriodsEnd` | crypto/idgen.c:103-136 | Every identifier of a period is made within 600 seconds of its first one, and the count of a period begins at zero |
| `IdGen.NoRepeats` | crypto/idgen.c:103-136 | In any history that follows the law, no identifier comes back within its key period or in the next one |
| `IdGen.Generator.Rekey` | crypto/idgen.c:103-111 | A rekey starts a new period with the other top bit |
| `IdGen.Generator.Attempt` | crypto/idgen.c:126-132 | One turn: a new period exactly past the limit or the time, then the identifier of key and count |
| `IdGen.Generator.Next` | crypto/idgen.c:121-136 | One call is one turn, or two when the first made zero; the result is never zero, whatever clock and randomness do |
| `IdGen.Run` | crypto/idgen.c:103-136 | In any number of calls the history explains every result, call by call, and obeys the generator's law; no identifier is zero, and none equals an earlier one of the same or the previous key period |
| `KeyWrap.StepInverse` | crypto/key_wrap.c:58-72 | One unwrapping step undoes one wrapping step and the reverse |
| `KeyWrap.IndexedIsShifted` | crypto/key_wrap.c:58-72 | After any number of steps the indexed form is the register-shifting form of section 2.2.1 of RFC 3394, but for the place of the registers |
| `KeyWrap.WrapIsShifted` | crypto/key_wrap.c:45-76 | The wrap is what 6n numbered steps of that form lead to |
| `KeyWrap.CipherOpsValid` | crypto/key_wrap.c:66-67 | With the initial value a6.. and the big-endian step number, every cipher with inverse directions meets the laws |
| `KeyWrap.UnwrapWrap` | crypto/key_wrap.c:45-112 | For every length and any block permutation, unwrap of wrap is the key data, accepted |
| `KeyWrap.AcceptedIffWrapped` | crypto/key_wrap.c:78-112 | A ciphertext is accepted if and only if it is the wrap of what is returned, and of anything at all |
| `KeyWrap.AesKeyWrap` | crypto/key_wrap.c:45-76 | The in-place loops compute the wrap (section 2.2.1 of RFC 3394), also when input and output overlap, and touch nothing else |
| `KeyWrap.AesKeyUnwrap` | crypto/key_wrap.c:78-112 | The same for unwrap (section 2.2.2 of RFC 3394) and its verdict |
| `Ghash.MulDistributes` | crypto/gmac.c:34-70 | The product is linear in its first operand |
| `Ghash.MulCommutes` | crypto/gmac.c:34-70 | The shift-and-add product is commutative |
| `Ghash.MulAssociates` | crypto/gmac.c:34-70 | And associative |
| `Ghash.HashIsPolynomial` | crypto/gmac.c:72-94 | Block-by-block hashing from any state is the polynomial: state times H^n plus the sum of block i times H^(n-i) |
| `Ghash.HashJoin` | crypto/gmac.c:72-94 | Splitting the input at any block boundary gives the same state |
| `GhashWords.BlockFieldValid` | crypto/gmac.c:46-63 | 128-bit blocks with the 0xe1 reduction meet all laws; every block is the sum of the generator powers its bits name |
| `GhashWords.LoadBlockNumbers` | crypto/gmac.c:43-49 | Each octet in memory is the number its eight bits of the block stand for, high bit first |
| `GhashWords.JoinedStep` | crypto/gmac.c:56-62 | The four-word shift with conditional reduction is multiplication by the generator |
| `GhashWords.GfMul` | crypto/gmac.c:34-70 | The 128-turn loop over words computes the field product |
| `GhashPolynomial.MulIsRemainder` | crypto/gmac.c:34-70 | For all blocks, the product of polynomials over GF(2), summed over coefficients, is a multiple of x^128 + x^7 + x^2 + x + 1 and the product computed |
| `GhashPolynomial.RemainderUnique` | crypto/gmac.c:34-70 | There is only one such remainder of degree below 128 |
| `GhashPolynomial.GfMulModulus` | crypto/gmac.c:34-70 | The loop returns that remainder and no other block is one |
| `GhashPolynomial.StepReduces` | crypto/gmac.c:56-62 | A step is multiplication by x, less the modulus exactly if the degree would be 128 |
| `GhashWords.GfMulAlgebra` | crypto/gmac.c:34-70 | Commutativity, associativity, linearity and unit for the code's product |
| `GhashWords.GhashIsPolynomial` | crypto/gmac.c:72-94 | Section 6.4 of NIST SP 800-38D for the code's blocks |
| `GhashWords.Context.GhashUpdate` | crypto/gmac.c:72-94 | Updates the state to the hash of the further blocks and keeps S and Z equal, also for no blocks |
| `GhashWords.Context.Update` | crypto/gmac.c:125-143 | Data of any length under 2^16 is hashed as its blocks, the last one filled up with zeros |
| `GhashWords.BlocksFillUp` | crypto/gmac.c:131-140 | Data that ends within a block is hashed like data filled up with zero octets |
| `GhashWords.UpdatesJoin` | crypto/gmac.c:125-143 | Two updates are one of the joined data when the first ends on a block boundary |
| `Softraid.ValidateStripSize` | dev/softraid.c:4513-4532 | Returns the exponent for powers of two that are whole sectors, and -1 for everything else |
| `Softraid.ExponentOfPower` | dev/softraid.c:4513-4532 | Every power of two is recognised, with its exponent |
| `Softraid.ExponentIsPower` | dev/softraid.c:4513-4532 | Whatever is recognised is that power of two |
| `Softraid.AcceptsIff` | dev/softraid.c:4590-4594 | The range test accepts exactly the requests that end less than two sectors past the volume; of whole-sector ones those inside and those that end one sector past |
| `Softraid.AcceptsTooMuch` | dev/softraid.c:4590-4594 | A request for the sector after the last one is accepted |
| `Raid0.MapIsDivMod` | dev/softraid_raid0.c:141-146 | The reference map is the division and remainder mapping of the source |
| `Raid0.MapBijective` | dev/softraid_raid0.c:141-146 | Volume bytes and chunk bytes correspond one to one, both inverses given |
| `Raid0.Advance` | dev/softraid_raid0.c:178-184 | The incremental update of chunk and offset lands on the next strip |
| `Raid0.Rw` | dev/softraid_raid0.c:140-186 | Every byte of every piece sits where the direct map puts it; pieces are consecutive and sum to the request; their number is the number of strips touched; it succeeds exactly when the chunks of those strips are online |
| `Raid0.TilesCover` | dev/softraid_raid0.c:140-186 | Each byte of the request is in a piece, at its mapped place |
| `Raid0.StripBoundIff` | dev/softraid_raid0.c:107-109 | MAXPHYS / strip + 1 bounds the pieces of every request up to MAXPHYS if and only if a strip is at most MAXPHYS |
| `Raid0.ReserveSuffices` | dev/softraid_raid0.c:107-109 | The transfers reserved for a work unit cover every request up to MAXPHYS, for every power-of-two strip |
| `Raid0.VolumeExact` | dev/softraid_raid0.c:82-85 | The recorded size is exactly the bytes that map into the whole strips of the chunks |
| `Raid0.PiecesInside` | dev/softraid_raid0.c:82-85 | Requests inside the recorded size stay inside each chunk |
| `Raid0.BehindVolume` | dev/softraid_raid0.c:141-146 | Bytes just behind the volume fall on the first chunk, behind its strips |
| `Raid0.AcceptedLeavesChunkIff` | dev/softraid.c:4590-4594 | A request accepted one sector too far leaves its chunk if and only if the chunk is nothing but whole strips |
| `Concat.MapsUnique` | dev/softraid_concat.c:123-131 | A volume byte has one place |
| `Concat.MapsTotal` | dev/softraid_concat.c:123-131 | Every byte inside the volume has a place |
| `Concat.MapsInside` | dev/softraid_concat.c:71-74 | Only bytes inside the summed size have one |
| `Concat.Create` | dev/softraid_concat.c:60-74 | Refuses fewer than two chunks; the recorded size is the sum of the chunk sizes |
| `Concat.Scan` | dev/softraid_concat.c:121-131 | Finds chunk and offset of an address; runs off the table exactly at or past the end |
| `Concat.Rw` | dev/softraid_concat.c:117-164 | Pieces cover the request in order, each mapped right; it fails for an offline chunk if and only if a chunk that holds a byte of the request is offline; otherwise it completes exactly inside the volume, is refused exactly past the end, and exactly when it runs into the end reaches a chunk that does not exist; up to MAXPHYS chunks strictly rise |
| `Concat.RwOnline` | dev/softraid_concat.c:117-164 | With all chunks online: completes if and only if the request is inside the volume, is refused if and only if it starts past the end, reaches a missing chunk if and only if it runs into the end |
| `Concat.RwAccepted` | dev/softraid_concat.c:117-164 | Behind the range test: completes if and only if inside; of whole-sector requests exactly those ending one sector past the volume reach a missing chunk |
| `Concat.TilesCover` | dev/softraid_concat.c:117-164 | Each byte of the request is in a piece, at its place |
| `Concat.PiecesInside` | dev/softraid_concat.c:136-136 | No piece reaches past its chunk |
| `AudioRing.WriteBlock` | dev/audio.c:254-268 | The writable piece starts at the write position, is contiguous, fits the free room, and is empty only when the ring is full |
| `AudioRing.ReadBlock` | dev/audio.c:206-216 | The readable piece starts at the read position, is contiguous, and is empty only when nothing is used |
| `AudioRing.PlayBlockKeeps` | dev/audio.c:383-390 | A play interrupt keeps start aligned and blksz <= used <= len; the write position moves only on an underrun, by one block |
| `AudioRing.PlayNeedsBlock` | dev/audio.c:383-390 | The ring stays sound if and only if a whole block was ready |
| `AudioRing.PlayUnderfed` | dev/audio.c:383-390 | Playing from an empty ring wraps `used` past the ring |
| `AudioRing.PlayAround` | dev/audio.c:448-459 | Playing as many blocks as the ring has comes back to the same start |
| `AudioRing.RecBlockKeeps` | dev/audio.c:461-467 | On a ring read in whole blocks a record interrupt keeps whole blocks with room for one more, and moves the write position by one block |
| `AudioRing.RecNeedsWholeBlocks` | dev/audio.c:461-467 | After every number of record interrupts used is within the ring if and only if it was a whole number of blocks, less than the ring |
| `AudioRing.RecSpills` | dev/audio.c:461-467 | Otherwise some number of interrupts, which it gives, overfills the ring |
| `AudioRing.RecOverfills` | dev/audio.c:463-463 | After a read of part of a block the ring is overfilled unnoticed |
| `AudioRing.RecAround` | dev/audio.c:368-381 | Recording as many blocks as the ring has comes back to the same write position |
| `AudioRing.RecBlockMoves` | dev/audio.c:461-467 | Whatever readers left in the ring, a record interrupt adds a block and drops the oldest exactly when used then equals the size; start, pos and xrun follow |
| `AudioIntr.BalancedStep` | dev/audio.c:383-390 | used + played = written + made up by underruns is kept by every interrupt |
| `AudioIntr.RecBalancedStep` | dev/audio.c:461-467 | used + read + dropped = recorded is kept by every record interrupt |
| `AudioIntr.CountersBalance` | dev/audio.c:383-390 | On the 32-bit counters: used + pos is written + xrun modulo 2^32 |
| `AudioIntr.HonoursStep` | dev/audio.c:1474-1514 | Whatever interrupts come between reservation and commit, the reserved count still fits |
| `AudioIntr.ReservationCurrentIff` | dev/audio.c:1474-1514 | The reserved range is still at the write position if and only if the underruns since are a multiple of the number of blocks |
| `AudioIntr.ReservationLost` | dev/audio.c:1474-1514 | One underrun during the copy, and the reserved range is no longer at the write position |
| `AudioIntr.RecHonoursStep` | dev/audio.c:1427-1441 | Whatever interrupts come between taking and discarding, what the reader took is still there to be discarded |
| `AudioIntr.ReadCurrentIff` | dev/audio.c:1427-1441 | What was copied is what is discarded if and only if the overruns since are a multiple of the number of blocks |
| `AudioIntr.ReadLost` | dev/audio.c:1427-1441 | One overrun during the copy: a block never copied is discarded, and the readable piece has shrunk |
| `AudioDevice.Device.PlayInterrupt` | dev/audio.c:348-414 | Terminates though it and the record handler call each other, and computes the event: exactly when recording has fallen a whole ring behind, one ring of record blocks first and offs to 0 |
| `AudioDevice.Device.RecordInterrupt` | dev/audio.c:419-489 | The mirror image |
| `AudioDevice.CatchUpsReturn` | dev/audio.c:448-459 | A catch-up leaves the play start where it was, and the write position of a record ring of whole blocks |
| `AudioDevice.Device.Start` | dev/audio.c:571-577 | Start resets counters and offs; the state is sound and settled if and only if a whole block is there to play |
| `AudioDevice.Device.Pad` | dev/audio.c:1330-1338 | Padding fills the ring in at most two turns, so DMA starts with a block ready |
| `AudioDevice.Device.Access` | dev/audio.c:1427-1514 | Writer and reader, each in two critical sections with any interrupts between: reserve and commit, take and discard, as the events say |
| `AudioDevice.Device.Run` | dev/audio.c:348-489 | In every run of interrupts, writes and reads of any size the device is where the events take it; offs is record blocks minus play blocks and stays strictly between minus the record ring and the play ring; rings, accounts and holds stay sound, written and read go up by what the events transfer, and with whole-block reads the record ring stays within its size |
| `AudioDevice.OnPlaySound` | dev/audio.c:348-414 | A play interrupt keeps rings, accounts, reservations and the bounds of offs |
| `AudioDevice.OnRecSound` | dev/audio.c:419-489 | So does a record interrupt |
| `AudioDevice.WriterSound` | dev/audio.c:1474-1514 | So do reserving and committing |
| `AudioDevice.ReaderSound` | dev/audio.c:1427-1441 | So do taking and discarding any part of the readable piece |
| `AudioDevice.CountersFollow` | dev/audio.c:348-489 | Blocks played in a run are its play interrupts plus whole rings, and so for recording |
| `AudioDevice.WriteArrives` | dev/audio.c:1474-1514 | A write of no more than was reserved puts exactly that many bytes into the play ring and changes nothing else |
| `AudioDevice.ReadDeparts` | dev/audio.c:1427-1441 | A read of no more than is readable takes exactly that many bytes off the record ring and moves its start on by as many |
| `AudioDevice.TransfersFollow` | dev/audio.c:1427-1514 | In every run, written goes up by the sum of the writes that find a reservation, read by the sum of what readers held |
| `AudioDevice.RunConserves` | dev/audio.c:348-489 | Over every run: what was there and was written is there or played, but for what underruns made up; what was recorded is there, read, or dropped |
| `AudioDevice.StillDevice` | dev/audio.c:354-364 | An idle or quiesced device stays as it is under any interrupts |
| `AudioDevice.RecorderInsideIff` | dev/audio.c:1427-1441 | In every run of interrupts, writes and whole-block reads the record ring holds no more than its size if and only if it starts with whole blocks, less than the ring, and the reader holds whole blocks |
| `AudioDevice.RunTidy` | dev/audio.c:1427-1441 | Whole blocks in the ring and in the hand of the reader stay whole in every run with whole-block reads |
| `AudioDevice.UntidySpills` | dev/audio.c:461-467 | From any other state there is a run that overfills the ring |
| `AudioDevice.Device.constructor` | dev/audio.c:331-343 | The sizes of `audio_setpar` and empty rings make a sound idle device |
| `AudioDevice.Use` | dev/audio.c:758-842 | From a request to any run: `audio_setpar`, idle writes and reads, padding, start and whatever follows leave the device sound and in step, and with whole-block reads the record ring within its size |
| `AudioParams.AudioGcd` | dev/audio.c:163-174 | The loop computes the Euclidean gcd |
| `AudioParams.GcdIsGreatest` | dev/audio.c:163-174 | Its divisors are exactly the common divisors |
| `AudioParams.FramesForIff` | dev/audio.c:768-781 | The frame multiplier is exact: frame counts that fill multiples of the hardware size are its multiples |
| `AudioParams.LcmIsLeast` | dev/audio.c:782-782 | The combined multiplier is the least common multiple |
| `AudioParams.FrameMultipleIff` | dev/audio.c:768-784 | Both directions' blocks are hardware multiples exactly for multiples of the combined multiplier |
| `AudioParams.ChooseRound` | dev/audio.c:787-818 | Fails exactly when no allowed frame count exists; otherwise no allowed count is nearer to the one asked for; positive exactly under the stated condition |
| `AudioParams.SetPar` | dev/audio.c:758-842 | ENODEV for a zero multiplier, EIO when no frame count is allowed; otherwise the nearest allowed count, blocks that are positive hardware multiples, the block count asked for clamped to 2 and what fits, record length the largest whole number of blocks; division by a zero block size exactly under the stated condition |
| `AudioParams.BlocksForNearest` | dev/audio.c:823-833 | The block count is the nearest to the one asked for among those of two at least that fit |
| `AudioParams.SlowRateDividesByZero` | dev/audio.c:801-841 | A request at rate 999 that ends in the division by zero |
| `AudioParams.ParMakesRings` | dev/audio.c:823-842 | The sizes make rings that DMA may run on |

## Left out

- The mbuf branch of `swcr_encdec`, `swcr_authenc`, `swcr_compdec`, the session table and the crypto dispatch: the mbuf routines are not part of this model, the others would add easier members.
- The insides of AES, Blowfish, CAST, ChaCha and the DES S-boxes and key schedules: they are parameters with laws, or arbitrary.
- Host byte order: words are loaded and stored big-endian (SHA-2, GHASH) or little-endian (DES) outright; the XTS tweak setup is modelled as a function of the IV.
- The other hashes (MD5, SHA-1, RIPEMD-160), which repeat the streaming shape.
- Sha2Stream.Context.Final: gives the state words; their serialisation is `Sha2Instances.Serialise`.
- Wiping of secrets other than `rs_buf` and hash contexts, and timing.
- Hmac.Session.constructor: keys of at most one block; for a longer key the source computes a negative pad length and reads past its pad buffer, which has no defined result.
- Softraid.ValidateStripSize: a size of zero, on which the source loops for ever.
- Integer widths where they do not show in a result: lengths and offsets are mathematical integers except where the code truncates or wraps (hash length argument, bit counts, `pos` and `xrun`, `size_t` in `audio_buf_rdiscard`, pool words, identifiers).
- AudioParams.SetPar: does not model 32-bit overflow of products such as rate, channel and block counts, because the source takes them from drivers within small ranges.
- IdGen.PermuteBijective: the round function is arbitrary, so the table-driven `idgen32_g` is not spelled out.
- Audio sample contents and silence, sleeping and wakeup, ioctls, mixer; `audio_drain` beyond its padding loop.
- Entropy estimation, the event queue, `/dev/random` reads through a private context, `arc4random_uniform`.
- `sr_ccb_rw` running out of transfers, chunk rebuilds, the other RAID disciplines.
- `crypto/siphash.c` and the registry of `crypto/crypto.c`: their intended properties do not follow from the code as it stands.
