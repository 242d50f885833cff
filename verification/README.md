# RinHash proof-of-work, modelled in Dafny

This project models the proof-of-work hash of Rincoin block headers. It covers:

- `RinHash`: the 80-byte serialized header goes through BLAKE3, then Argon2d with a fixed configuration, then SHA3-256.
- `CBlockHeader::GetHash`: the dispatch that picks RinHash for the "RIN" currency unit and double SHA-256 for every other unit.
- The standalone trace tool `contrib/rinhash_trace.cpp`. It has its own Keccak-f[1600] and SHA3-256, a hex codec, and a `main` that prints the three intermediate digests.

The modules follow the program's structure:

| file | module | what it holds |
|---|---|---|
| `wrappers.dfy` | `Wrappers` | `Result`, the success-or-error value that models a thrown `std::runtime_error` |
| `lanes.dfy` | `Lanes` | bytes, 32-byte digests, little-endian 64-bit lanes |
| `keccak_tables.dfy` | `KeccakTables` | `keccakRC`, `keccakRho`, `keccakPi`; the FIPS 202 tables, LFSR and pi mapping they are checked against |
| `keccak.dfy` | `Keccak` | Keccak-f[1600] as the FIPS 202 step mappings theta, rho, pi, chi and iota, over any lane type |
| `keccak_loops.dfy` | `KeccakLoops` | the loop nest of `keccakf`, proved to compute those step mappings |
| `sha3.dfy` | `Sha3` | the sponge of `sha3_256`, as a function and as the source's loop |
| `fips202.dfy` | `Fips202` | SHA3-256 as FIPS 202 defines it (`M || 01`, pad10\*1, sponge), and its equality with `sha3_256` |
| `hex.dfy` | `Hex` | `hexDigit`, `parseHex`, `toHex` and their round trips |
| `rinhash.dfy` | `RinHashing` | `RinHash`: the Argon2d context, the salt, the three chained stages |
| `block.dfy` | `Block` | `GetHash` and its coin table |
| `trace.dfy` | `Trace` | the trace tool's `main`: arguments, error messages, exit status, report |

BLAKE3, Argon2d, the node's `SHA3_256` class, double SHA-256 and header serialization are external code. They are not reimplemented. Each is a field of a `Primitives` value that the pipeline takes as a parameter, so every property holds whatever those functions compute.

The Keccak step mappings use only XOR, NOT, AND, rotation and the round constants. So they are written once over a generic lane type, `LaneOps<L>`. Their `uint64_t` instance is `Keccak.Lanes64`.

A few points about what the code does, which the model follows:

- `RinHash` never checks the length of the serialized bytes (src/bitcoin/crypto/rinhash.cpp:23-25). Only the trace tool rejects lengths other than 80 (contrib/rinhash_trace.cpp:154-156).
- The code throws `std::runtime_error`. The model returns `Result` instead, and an error value stands for the exception.
- Any unit other than "RIN" (BTC, LTC, BCH, unknown) uses double SHA-256. `Block.GetHash` keeps the three separate branches the code has, and `Block.NonRinUnitsAgree` shows they compute the same thing.

## Model

| member | source | states |
|---|---|---|
| KeccakTables.RhoAmountsInRange | contrib/rinhash_trace.cpp:26-29 | every `keccakRho` amount is in 1..63, so the shift `x >> (64 - s)` in `rotl64` is always defined |
| KeccakTables.PiStepInvertsPi | contrib/rinhash_trace.cpp:30-33 | `keccakPi` names lanes 1..24, and `PiStep` recovers the step from the lane, so no lane is written twice |
| KeccakTables.KeccakPiIsPermutation | contrib/rinhash_trace.cpp:30-33 | `keccakPi` is injective into lanes 1..24: the rho/pi walk writes each non-zero lane exactly once |
| KeccakTables.WalkFollowsPi | contrib/rinhash_trace.cpp:48-53 | the lane the walk carries into step t is the FIPS 202 pi source, `((x + 3y) mod 5, x)`, of the lane written at step t |
| KeccakTables.WalkFollowsRho | contrib/rinhash_trace.cpp:26-29 | the rotation at step t is the FIPS 202 Table 2 rho offset of the lane carried at step t |
| KeccakTables.RhoFollowsAlgorithm2 | contrib/rinhash_trace.cpp:26-29 | `keccakRho[t]` is the offset (t + 1)(t + 2)/2 mod 64 of FIPS 202 Algorithm 2 |
| KeccakTables.WalkWritesFipsLane | contrib/rinhash_trace.cpp:48-53 | every lane 1..24 is written from its FIPS 202 pi source, rotated by that source's rho offset |
| KeccakTables.PiDestInvertsSource | contrib/rinhash_trace.cpp:30-33 | FIPS 202 pi is a permutation: `PiDest` undoes `PiSource` on all 25 lanes |
| KeccakTables.LfsrAtRoundIsLfsrState | contrib/rinhash_trace.cpp:18-25 | the per-round LFSR states behind the round constants are 7·ir steps of the FIPS 202 Algorithm 5 LFSR |
| KeccakTables.KeccakRCMatchesFips202 | contrib/rinhash_trace.cpp:18-25 | each of the 24 `keccakRC` entries is the FIPS 202 Algorithm 6 round constant built from rc(j + 7·ir) |
| Keccak.RotationsUsedAreRotations | contrib/rinhash_trace.cpp:35 | `rotl64` is a true 64-bit left rotation at amount 1 and at all 24 `keccakRho` amounts |
| Keccak.Lanes64RoundConstants | contrib/rinhash_trace.cpp:61 | the constant XORed into lane 0 in round ir is FIPS 202's RC for round ir |
| Keccak.ThetaColumnUniform | contrib/rinhash_trace.cpp:43-46 | theta changes lane (x, y) by XOR with D[x]; all five lanes of a column receive the same value |
| Keccak.ThetaEffectFromParities | contrib/rinhash_trace.cpp:41-44 | D[x] depends on the state only through the five column parities |
| Keccak.PiMovesLane | contrib/rinhash_trace.cpp:48-53 | pi carries lane j to lane `PiDest(j)` unchanged, so no lane value is lost |
| Keccak.RhoPiFixLaneZero | contrib/rinhash_trace.cpp:48-53 | rho and pi both leave lane 0 in place and unrotated |
| Keccak.ChiLaneLocal | contrib/rinhash_trace.cpp:55-59 | a lane of chi's output depends only on that lane and the next two lanes of its row |
| Keccak.ChiRowLocal | contrib/rinhash_trace.cpp:55-59 | chi works row by row: equal input rows give equal output rows |
| Keccak.IotaOnlyLaneZero | contrib/rinhash_trace.cpp:61 | iota XORs the FIPS 202 round constant into lane 0 and leaves lanes 1..24 unchanged |
| Keccak.IotaInvolution | contrib/rinhash_trace.cpp:61 | applying iota twice with the same round gives the state back |
| KeccakLoops.ColumnParities | contrib/rinhash_trace.cpp:41-42 | the first theta loop leaves the parity C[x] of column x in `b[x]` |
| KeccakLoops.ThetaColumn | contrib/rinhash_trace.cpp:45 | the inner loop XORs `t` into the five lanes of column x and into nothing else |
| KeccakLoops.ThetaLoop | contrib/rinhash_trace.cpp:41-46 | the theta loops compute FIPS 202 theta, with `b[(x + 4) % 5]` as C[(x - 1) mod 5] |
| KeccakLoops.WalkIsRhoPi | contrib/rinhash_trace.cpp:48-53 | the whole 24-step walk, with lane 0 never written, is FIPS 202 rho followed by pi |
| KeccakLoops.RhoPiLoop | contrib/rinhash_trace.cpp:48-53 | the rho/pi loop, carrying one lane in `t`, computes pi(rho(A)) |
| KeccakLoops.ChiRowLoop | contrib/rinhash_trace.cpp:56-58 | one pass of chi's outer loop rewrites exactly the five lanes of its row, each from the saved copy `b` |
| KeccakLoops.ChiLoop | contrib/rinhash_trace.cpp:55-59 | the chi loops compute FIPS 202 chi: each row is copied into `b` first, so the lanes of a row are rewritten from the copy rather than from `st` |
| KeccakLoops.KeccakFLoop | contrib/rinhash_trace.cpp:37-63 | the 24-round loop computes rounds 0..23 of theta, rho, pi, chi, iota in that order |
| KeccakLoops.KeccakF64 | contrib/rinhash_trace.cpp:37-63 | `keccakf` on `uint64_t` lanes is Keccak-f[1600] |
| Lanes.ByteOfInt | contrib/rinhash_trace.cpp:133 | the `uint8_t` cast of a value 0..255 is the byte with that value |
| Lanes.LoadStoreLane | contrib/rinhash_trace.cpp:98 | the little-endian bytes of a lane load back to the lane |
| Lanes.StoreLoadLane | contrib/rinhash_trace.cpp:76 | loading 8 bytes into a lane and storing it gives the 8 bytes back |
| Sha3.XorLanes | contrib/rinhash_trace.cpp:74-78 | XORing the first k block lanes changes lanes 0..k-1 by XOR and leaves the rest unchanged |
| Sha3.XorBlockLoop | contrib/rinhash_trace.cpp:90-94 | the lane loop XORs the 17 little-endian lanes of a 136-byte block into the rate part of the state |
| Sha3.Sha3_256Loop | contrib/rinhash_trace.cpp:66-99 | the absorb loop, the padded last block and the 32-byte squeeze compute the sponge `Sha3_256` for every input length |
| Fips202.Padded | contrib/rinhash_trace.cpp:84-88 | the padded message is the message followed by 1 to 136 bytes, filling whole blocks |
| Fips202.PadBlockAppendsPadding | contrib/rinhash_trace.cpp:84-88 | the last buffer is the remaining bytes followed by the FIPS 202 padding bytes, with 0x06 and 0x80 merged into 0x86 when one byte is free |
| Fips202.PadBytesAreFips202Bits | contrib/rinhash_trace.cpp:87-88 | as bits, the padding bytes are the SHA-3 suffix 01 followed by pad10\*1 of FIPS 202 Algorithm 9, for any message length |
| Fips202.AbsorbIsSpongeOfPadded | contrib/rinhash_trace.cpp:71-95 | absorbing whole blocks then the padded buffer is the sponge over the padded message, including when the length is a multiple of 136 |
| Fips202.Sha3MatchesFips202 | contrib/rinhash_trace.cpp:66-99 | `sha3_256` is FIPS 202 SHA3-256 for messages of every length |
| Hex.ToLowerC | contrib/rinhash_trace.cpp:116 | `tolower` maps 'A'..'Z' to the matching 'a'..'z' and leaves every other character alone |
| Hex.HexDigit | contrib/rinhash_trace.cpp:114-119 | `hexDigit` is -1 exactly for non-hex characters, and otherwise a value 0..15 |
| Hex.HexDigitOfDigitChar | contrib/rinhash_trace.cpp:114-119 | `hexDigit` reads back every digit that `toHex` prints |
| Hex.DigitCharOfHexDigit | contrib/rinhash_trace.cpp:114-119 | a digit of either case reads to the value whose printed digit is its lower-case form |
| Hex.ParsePairs | contrib/rinhash_trace.cpp:127-135 | the pair loop yields one byte per two characters, and fails only with the invalid-character error |
| Hex.ParseHex | contrib/rinhash_trace.cpp:121-136 | odd lengths are rejected before any character is read; a success has half as many bytes as characters |
| Hex.ParseHexAccepts | contrib/rinhash_trace.cpp:121-136 | `parseHex` succeeds exactly on even-length strings of hex digits |
| Hex.ToHex | contrib/rinhash_trace.cpp:105-112 | `toHex` prints two characters per byte |
| Hex.ParseHexOfToHex | contrib/rinhash_trace.cpp:105-136 | parsing what `toHex` printed gives the bytes back |
| Hex.ToHexOfParseHex | contrib/rinhash_trace.cpp:105-136 | printing what `parseHex` read gives the input back in lower case |
| RinHashing.Strlen | src/bitcoin/crypto/rinhash.cpp:41 | `strlen` counts the bytes before the first NUL, or the whole string if it has none |
| RinHashing.SaltIsRinCoinSalt | src/bitcoin/crypto/rinhash.cpp:33 | the salt is the 11 bytes of "RinCoinSalt", and the terminating NUL is not part of it |
| RinHashing.RinHashContextIsFixed | src/bitcoin/crypto/rinhash.cpp:35-49 | t_cost 2, m_cost 64, 1 lane, 1 thread, version 0x13, 32-byte output, 11-byte salt; only the password varies |
| RinHashing.RinHashStages | src/bitcoin/crypto/rinhash.cpp:27-56 | the stages succeed exactly when Argon2d reports `ARGON2_OK`, and a failure carries the status that was not OK |
| RinHashing.RinHashChainsStages | src/bitcoin/crypto/rinhash.cpp:21-58 | Argon2d's password is BLAKE3 of the serialized header, and the result is SHA3-256 of Argon2d's output |
| RinHashing.RinHashFailsOnlyInArgon2d | src/bitcoin/crypto/rinhash.cpp:51-53 | `RinHash` throws exactly when Argon2d's status is not `ARGON2_OK` |
| RinHashing.RinHashDependsOnBytesOnly | src/bitcoin/crypto/rinhash.cpp:23-25 | two headers with the same serialization have the same RinHash |
| Block.GetHash | src/bitcoin/block.cpp:18-35 | "RIN" gives RinHash; every other unit gives double SHA-256 of the serialized header |
| Block.GetHashFollowsCoinTable | src/bitcoin/block.cpp:18-35 | the chain of branches computes the algorithm the coin table names, with double SHA-256 for units not in the table |
| Block.OnlyRinUsesRinHash | src/bitcoin/block.cpp:22-33 | a unit selects RinHash if and only if it is "RIN" |
| Block.NonRinUnitsAgree | src/bitcoin/block.cpp:25-33 | BTC, LTC and every unknown unit hash a header the same way |
| Block.GetHashFailsOnlyForRin | src/bitcoin/block.cpp:22-24 | `GetHash` throws only for "RIN", and exactly when Argon2d fails |
| Trace.TraceContextIsRinHashContext | contrib/rinhash_trace.cpp:164-180 | the tool's Argon2d context, with its own `saltStr` literal, is the node's `RinHash` context |
| Trace.TraceStages | contrib/rinhash_trace.cpp:158-187 | the tool's stages run BLAKE3, then Argon2d on its digest, then the tool's own `sha3_256` on Argon2d's output, and fail only with the Argon2d message |
| Trace.Main | contrib/rinhash_trace.cpp:145-199 | exit 0 with four output lines and no errors, or exit 1 with no output; a wrong argument count prints the usage; exit 0 needs a hex argument of 80 bytes |
| Trace.MainSucceedsIff | contrib/rinhash_trace.cpp:145-199 | a run succeeds if and only if there is one argument, it decodes to 80 bytes, and Argon2d reports `ARGON2_OK` |
| Trace.HeaderHex | contrib/rinhash_trace.cpp:152-156 | a string that decodes to a header is 160 hex digits |
| Trace.SuccessfulArgument | contrib/rinhash_trace.cpp:152-156 | the argument of a successful run is 160 hex digits of either case |
| Trace.MainFailureMessages | contrib/rinhash_trace.cpp:122-184 | each failure (odd length, bad character, wrong length, Argon2d) writes its own message and exits with 1 |
| Trace.TraceStagesAreRinHashStages | contrib/rinhash_trace.cpp:158-187 | the tool's stages fail together with the node's, and give the same digests when the two SHA3-256s agree |
| Trace.MainReport | contrib/rinhash_trace.cpp:189-194 | a successful run prints exactly the report of the stages on the decoded argument |
| Trace.MainReportsRinHash | contrib/rinhash_trace.cpp:189-192 | a successful run echoes its argument, and its last line is the header's RinHash in hex |
| Trace.ReportDecodes | contrib/rinhash_trace.cpp:190-192 | each digest line holds 64 hex digits that decode back to the digest |
| Trace.DecodedHeaderIsArgument | contrib/rinhash_trace.cpp:152-153 | the decoded header printed back in hex is the argument in lower case |

## Left out

- Output streams are modelled as sequences of lines without the trailing '\n'. `std::cerr` and `std::cout` are kept apart, but their interleaving in time is not modelled.
- `argc == 0`: C++ would pass a null `argv[0]` to `printUsage`. The model prints the usage with an empty program name.
- BLAKE3, Argon2d (`argon2d_ctx`), the node's `SHA3_256` class, `SerializeHash`'s double SHA-256 and `CDataStream` header serialization are external code. They are parameters (`Primitives`), not models.
- `GetCurrencyUnit` is a parameter of `GetHash`, because where the unit comes from is outside the hashing code.
- `CBlock::ToString` (src/bitcoin/block.cpp:37-48) only formats text for logging. It has no bearing on the hash.
- src/bitcoin/crypto/rinhash.h is a declaration only.
- `uint256` is modelled as its 32 bytes. Its internal representation and comparison operators are not part of this model.
- `memcpy` between bytes and `uint64_t` lanes is modelled as little-endian, the byte order FIPS 202 requires. A big-endian host would compute something else; that is not modelled.
- The Argon2 allocator callbacks and flags (`allocate_cbk`, `free_cbk`, `ARGON2_DEFAULT_FLAGS`) are not fields of the modelled context. They do not affect the output.
- There are no known-answer test vectors: a digest of a concrete message would need Keccak-f evaluated by the verifier.
- Keccak.RotationsUsedAreRotations: `rotl64` is proved to be a rotation only at the 24 distinct amounts the source uses (theta's 1 is also `keccakRho[0]`), not at every amount 1..63.
- Keccak.Lanes64: rotation amounts outside 1..63 and rounds past 23 never occur. They are given the identity and zero so that the record of lane operations is total.
- RinHashing.RinHashContextIsFixed: the salt is stated as the 11 bytes of its ASCII codes, not compared with a character string.
- Trace.MainReportsRinHash: the tool's SHA3-256 equals the node's `SHA3_256` class only under the stated assumption. The node's class is external code.
- Trace.Main: each `char` of an argument stands for one byte of `argv`. So the model covers arguments whose characters are below 256, and a non-ASCII argument is taken to be its UTF-8 bytes, one `char` per byte. A Dafny string holding a character above 255 gets its parity and digits checked per character, not per byte. For example, one 'é' followed by 159 '0's gives "invalid hex character" where the tool, seeing 161 bytes, reports "hex string must have even length". The exit status is 1 either way.
