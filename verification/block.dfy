/**
 * `CBlockHeader::GetHash` (src/bitcoin/block.cpp): the proof-of-work hash of a
 * header, chosen by the configured currency unit. "RIN" uses RinHash; every
 * other unit, named or not, uses double SHA-256 of the serialized header.
 *
 * The currency unit is a parameter: where `GetCurrencyUnit` gets it from is
 * not part of this model.
 */
module Block {
  import opened Wrappers
  import opened Lanes
  import opened RinHashing

  /** `SerializeHash`: double SHA-256 of the header serialized for hashing. */
  function SerializeHash(p: Primitives, header: BlockHeader): Digest32
  {
    p.sha256d(p.serialize(header))
  }

  /** `GetHash`: the dispatch on the currency unit; a RinHash failure propagates as the exception does. */
  function GetHash(p: Primitives, unit: string, header: BlockHeader): (r: Result<Digest32, RinHashError>)
    ensures unit == "RIN" ==> r == RinHash(p, header)
    ensures unit != "RIN" ==> r == Success(SerializeHash(p, header))
  {
    if unit == "RIN" then RinHash(p, header)
    else if unit == "BTC" then Success(SerializeHash(p, header))
    else if unit == "LTC" then Success(SerializeHash(p, header))
    else Success(SerializeHash(p, header))
  }

  // ---- the same dispatch as a table of coins ----

  /** The proof-of-work algorithms a coin can use. */
  datatype PowAlgorithm = RinHashPow | Sha256dPow

  /** The coins with a branch of their own, and their algorithms. */
  const KnownCoins: map<string, PowAlgorithm> := map["RIN" := RinHashPow, "BTC" := Sha256dPow, "LTC" := Sha256dPow]

  /** A coin's algorithm: its table entry, or double SHA-256 for a coin not in the table. */
  function AlgorithmFor(unit: string): (a: PowAlgorithm)
    ensures unit in KnownCoins ==> a == KnownCoins[unit]
    ensures unit !in KnownCoins ==> a == Sha256dPow
  {
    if unit in KnownCoins then KnownCoins[unit] else Sha256dPow
  }

  /** The hash a given algorithm computes for a header. */
  function PowHash(a: PowAlgorithm, p: Primitives, header: BlockHeader): (r: Result<Digest32, RinHashError>)
    ensures a == Sha256dPow ==> r.Success?
  {
    match a
    case RinHashPow => RinHash(p, header)
    case Sha256dPow => Success(SerializeHash(p, header))
  }

  /** The chain of branches computes what the coin's table entry names. */
  lemma GetHashFollowsCoinTable(p: Primitives, unit: string, header: BlockHeader)
    ensures GetHash(p, unit, header) == PowHash(AlgorithmFor(unit), p, header)
  {
    OnlyRinUsesRinHash(unit);
  }

  /** Only "RIN" selects RinHash: the algorithm is double SHA-256 exactly for the other units. */
  lemma OnlyRinUsesRinHash(unit: string)
    ensures AlgorithmFor(unit) == RinHashPow <==> unit == "RIN"
  {
    assert KnownCoins.Keys == {"RIN", "BTC", "LTC"};
  }

  /** BTC, LTC and every unknown unit hash a header identically. */
  lemma NonRinUnitsAgree(p: Primitives, u1: string, u2: string, header: BlockHeader)
    requires u1 != "RIN" && u2 != "RIN"
    ensures GetHash(p, u1, header) == GetHash(p, u2, header)
  {
  }

  /** `GetHash` throws only for "RIN", and only when Argon2d does not report `ARGON2_OK`. */
  lemma GetHashFailsOnlyForRin(p: Primitives, unit: string, header: BlockHeader)
    ensures GetHash(p, unit, header).Failure? <==>
      unit == "RIN" && p.argon2d(RinHashContext(p.blake3(p.serialize(header)))).status != Argon2Ok
  {
    RinHashFailsOnlyInArgon2d(p, header);
  }
}
