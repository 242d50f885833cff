/**
 * `RinHash` (src/bitcoin/crypto/rinhash.cpp): the serialized header through
 * BLAKE3, then Argon2d with a fixed configuration, then SHA3-256.
 *
 * BLAKE3, Argon2d, the `SHA3_256` class, double SHA-256 and the header
 * serialization are not part of this model: they are the fields of a
 * `Primitives` value that every operation takes as a parameter, so each
 * property below holds whatever those functions compute.
 */
module RinHashing {
  import opened Wrappers
  import opened Lanes

  /** A block header: version, previous block, Merkle root, time, bits, nonce. */
  datatype BlockHeader = BlockHeader(
    version: bv32,
    hashPrevBlock: Digest32,
    hashMerkleRoot: Digest32,
    time: bv32,
    bits: bv32,
    nonce: bv32)

  /** The `argon2_context` fields the pipeline sets (allocator callbacks and flags are left out). */
  datatype Argon2Context = Argon2Context(
    outLen: nat,
    pwd: Bytes,
    salt: Bytes,
    tCost: nat,
    mCost: nat,
    lanes: nat,
    threads: nat,
    version: nat)

  /** What `argon2d_ctx` reports: its status code and the bytes it wrote to `out`. */
  datatype Argon2Result = Argon2Result(status: int, out: Digest32)

  /** `ARGON2_OK`. */
  const Argon2Ok: int := 0

  /** `ARGON2_VERSION_13`. */
  const Argon2Version13: nat := 0x13

  /** The functions the pipeline calls but whose code is not part of this model. */
  datatype Primitives = Primitives(
    serialize: BlockHeader -> Bytes,
    blake3: Bytes -> Digest32,
    argon2d: Argon2Context -> Argon2Result,
    sha3: Bytes -> Digest32,
    sha256d: Bytes -> Digest32)

  /**
   * `static constexpr char salt_str[] = "RinCoinSalt"`: the ASCII codes of
   * R, i, n, C, o, i, n, S, a, l, t and the terminating NUL.
   */
  const SaltStorage: Bytes := [0x52, 0x69, 0x6e, 0x43, 0x6f, 0x69, 0x6e, 0x53, 0x61, 0x6c, 0x74, 0x00]

  /** `std::strlen`: the bytes before the first NUL. */
  function Strlen(s: Bytes): (n: nat)
    ensures n <= |s|
    ensures forall i | 0 <= i < n :: s[i] != 0
    ensures n < |s| ==> s[n] == 0
  {
    if s == [] || s[0] == 0 then 0 else 1 + Strlen(s[1..])
  }

  /** A NUL after n non-NUL bytes ends the string there. */
  lemma StrlenAt(s: Bytes, n: nat)
    requires n < |s| && s[n] == 0
    requires forall i | 0 <= i < n :: s[i] != 0
    ensures Strlen(s) == n
  {
  }

  /** The salt passed to Argon2d: `salt_str` up to its `strlen`. */
  function Salt(): Bytes
  {
    SaltStorage[..Strlen(SaltStorage)]
  }

  /** The salt is the eleven ASCII bytes of "RinCoinSalt", without the terminating NUL. */
  lemma SaltIsRinCoinSalt()
    ensures Strlen(SaltStorage) == 11
    ensures Salt() == SaltStorage[..11] && SaltStorage[11] == 0
  {
    assert forall i | 0 <= i < 11 :: SaltStorage[i] != 0;
    StrlenAt(SaltStorage, 11);
  }

  /** The Argon2d configuration both the node and the trace tool use, for a given password. */
  function RinHashContext(pwd: Digest32): (c: Argon2Context)
    ensures c.pwd == pwd && |c.pwd| == 32 && c.outLen == 32
  {
    Argon2Context(
      outLen := 32,
      pwd := pwd,
      salt := Salt(),
      tCost := 2,
      mCost := 64,
      lanes := 1,
      threads := 1,
      version := Argon2Version13)
  }

  /**
   * The configuration is fixed: 2 passes over 64 KiB, one lane, one thread,
   * version 0x13, a 32-byte output and the "RinCoinSalt" salt. Only the
   * password varies.
   */
  lemma RinHashContextIsFixed(pwd: Digest32)
    ensures var c := RinHashContext(pwd);
      c.tCost == 2 && c.mCost == 64 && c.lanes == 1 && c.threads == 1 &&
      c.version == 0x13 && c.outLen == 32 && c.salt == Salt() && |c.salt| == 11
    ensures forall q: Digest32 :: RinHashContext(q) == RinHashContext(pwd).(pwd := q)
  {
    SaltIsRinCoinSalt();
  }

  /** The three stage outputs of the pipeline. */
  datatype Stages = Stages(blake3: Digest32, argon2d: Digest32, sha3: Digest32)

  /** Why the pipeline throws: Argon2d reported a status other than `ARGON2_OK`. */
  datatype RinHashError = Argon2dFailed(status: int)

  /** The stages on the serialized header bytes, stopping if Argon2d fails. */
  function RinHashStages(p: Primitives, input: Bytes): (r: Result<Stages, RinHashError>)
    ensures r.Success? <==> p.argon2d(RinHashContext(p.blake3(input))).status == Argon2Ok
    ensures r.Failure? ==> r.error.status != Argon2Ok
  {
    var d1 := p.blake3(input);
    var a := p.argon2d(RinHashContext(d1));
    if a.status != Argon2Ok then Failure(Argon2dFailed(a.status))
    else Success(Stages(d1, a.out, p.sha3(a.out)))
  }

  /** `RinHash`: the last stage's digest, copied byte for byte into the `uint256`. */
  function RinHash(p: Primitives, header: BlockHeader): (r: Result<Digest32, RinHashError>)
  {
    var s :- RinHashStages(p, p.serialize(header));
    Success(s.sha3)
  }

  /**
   * The stages are chained: Argon2d's password is the BLAKE3 digest of the
   * serialized header, and the result is SHA3-256 of the Argon2d output.
   */
  lemma RinHashChainsStages(p: Primitives, header: BlockHeader)
    requires RinHash(p, header).Success?
    ensures var s := RinHashStages(p, p.serialize(header));
      s.Success? &&
      s.value.blake3 == p.blake3(p.serialize(header)) &&
      p.argon2d(RinHashContext(s.value.blake3)) == Argon2Result(Argon2Ok, s.value.argon2d) &&
      RinHash(p, header).value == s.value.sha3 == p.sha3(s.value.argon2d)
  {
  }

  /** `RinHash` fails exactly when Argon2d does, and then produces no digest. */
  lemma RinHashFailsOnlyInArgon2d(p: Primitives, header: BlockHeader)
    ensures RinHash(p, header).Failure? <==>
      p.argon2d(RinHashContext(p.blake3(p.serialize(header)))).status != Argon2Ok
  {
  }

  /** The digest depends on the header only through its serialized bytes. */
  lemma RinHashDependsOnBytesOnly(p: Primitives, h1: BlockHeader, h2: BlockHeader)
    requires p.serialize(h1) == p.serialize(h2)
    ensures RinHash(p, h1) == RinHash(p, h2)
  {
  }
}
