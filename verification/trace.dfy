/**
 * The trace tool's `main` (contrib/rinhash_trace.cpp): it checks its one
 * argument, decodes it as an 80-byte header and prints the three
 * intermediate digests of the RinHash pipeline, using its own SHA3-256.
 *
 * A run is modelled as a function of the argument vector to what the tool
 * writes and the status it exits with. Lines are written without their
 * trailing '\n'. BLAKE3 and Argon2d come from the `Primitives` parameter.
 */
module Trace {
  import opened Wrappers
  import opened Lanes
  import opened Hex
  import opened Sha3
  import opened RinHashing

  /** What a run writes to standard output and standard error, and its exit status. */
  datatype Run = Run(exitCode: int, stdout: seq<string>, stderr: seq<string>)

  /** The header length the tool insists on, in bytes. */
  const HeaderLen: nat := 80

  /** `printUsage`. */
  function Usage(argv0: string): seq<string>
  {
    ["Usage: " + argv0 + " <80-byte-block-header-hex>",
     "Example: " + argv0 + " 0000... (160 hex chars)"]
  }

  /** The `what()` of the exception `parseHex` throws. */
  function HexMessage(e: HexError): string
  {
    match e
    case OddLength => "hex string must have even length"
    case InvalidHexCharacter => "invalid hex character"
  }

  const LengthMessage: string := "header must be exactly 80 bytes (160 hex chars)"
  const Argon2dMessage: string := "Argon2d hashing failed"

  /** The `catch` handler: the message on standard error, exit status 1. */
  function Fail(message: string): (r: Run)
    ensures r.exitCode == 1 && r.stdout == [] && |r.stderr| == 1
  {
    Run(1, [], ["error: " + message])
  }

  /**
   * The tool's own `static constexpr char saltStr[] = "RinCoinSalt"`: the
   * ASCII codes of R, i, n, C, o, i, n, S, a, l, t and the terminating NUL.
   */
  const TraceSaltStorage: Bytes := [0x52, 0x69, 0x6e, 0x43, 0x6f, 0x69, 0x6e, 0x53, 0x61, 0x6c, 0x74, 0x00]

  /** The tool's own `argon2_context`, filled in field by field. */
  function TraceContext(pwd: Digest32): (c: Argon2Context)
    ensures c.pwd == pwd
  {
    Argon2Context(
      outLen := 32,
      pwd := pwd,
      salt := TraceSaltStorage[..Strlen(TraceSaltStorage)],
      tCost := 2,
      mCost := 64,
      lanes := 1,
      threads := 1,
      version := Argon2Version13)
  }

  /** The tool hashes with exactly the configuration of the node's `RinHash`. */
  lemma TraceContextIsRinHashContext(pwd: Digest32)
    ensures TraceContext(pwd) == RinHashContext(pwd)
  {
    assert TraceSaltStorage == SaltStorage;
  }

  /** The three stages on the decoded header: BLAKE3, Argon2d, then the tool's own `sha3_256`. */
  function TraceStages(p: Primitives, input: Bytes): (r: Result<Stages, string>)
    ensures r.Failure? ==> r.error == Argon2dMessage
    ensures r.Success? ==>
      r.value.blake3 == p.blake3(input) &&
      p.argon2d(TraceContext(r.value.blake3)) == Argon2Result(Argon2Ok, r.value.argon2d) &&
      r.value.sha3 == Sha3_256(r.value.argon2d)
  {
    var d1 := p.blake3(input);
    var a := p.argon2d(TraceContext(d1));
    if a.status != Argon2Ok then Failure(Argon2dMessage)
    else Success(Stages(d1, a.out, Sha3_256(a.out)))
  }

  /** The four lines printed for a successful run. */
  function Report(headerHex: string, s: Stages): (lines: seq<string>)
    ensures |lines| == 4
  {
    ["input_header_hex=" + headerHex,
     "step1_blake3=" + ToHex(s.blake3),
     "step2_argon2d_v13=" + ToHex(s.argon2d),
     "step3_sha3_256=" + ToHex(s.sha3)]
  }

  /** `main`. An empty argument vector prints the usage with an empty program name. */
  function Main(p: Primitives, args: seq<string>): (r: Run)
    ensures r.exitCode == 0 || r.exitCode == 1
    ensures r.exitCode == 0 <==> r.stderr == []
    ensures r.exitCode == 0 <==> |r.stdout| == 4
    ensures r.exitCode == 1 ==> r.stdout == []
    ensures |args| != 2 ==> r == Run(1, [], Usage(if args == [] then "" else args[0]))
    ensures r.exitCode == 0 ==> |args| == 2 && ParseHex(args[1]).Success? && |ParseHex(args[1]).value| == HeaderLen
  {
    if |args| != 2 then Run(1, [], Usage(if args == [] then "" else args[0]))
    else
      var headerHex := args[1];
      match ParseHex(headerHex)
      case Failure(e) => Fail(HexMessage(e))
      case Success(input) =>
        if |input| != HeaderLen then Fail(LengthMessage)
        else
          match TraceStages(p, input)
          case Failure(message) => Fail(message)
          case Success(s) => Run(0, Report(headerHex, s), [])
  }

  // ---- what a run promises ----

  /**
   * A run succeeds exactly when there is one argument, it decodes to 80 bytes,
   * and Argon2d reports `ARGON2_OK` for the BLAKE3 digest of those bytes.
   */
  lemma MainSucceedsIff(p: Primitives, args: seq<string>)
    ensures Main(p, args).exitCode == 0 <==>
      |args| == 2 && ParseHex(args[1]).Success? && |ParseHex(args[1]).value| == HeaderLen &&
      p.argon2d(RinHashContext(p.blake3(ParseHex(args[1]).value))).status == Argon2Ok
  {
    if |args| == 2 && ParseHex(args[1]).Success? {
      TraceContextIsRinHashContext(p.blake3(ParseHex(args[1]).value));
    }
  }

  /** A string that decodes to a header is 160 hex digits of either case. */
  lemma HeaderHex(hex: string)
    requires ParseHex(hex).Success? && |ParseHex(hex).value| == HeaderLen
    ensures |hex| == 2 * HeaderLen
    ensures forall i | 0 <= i < |hex| :: IsHexChar(hex[i])
  {
    ParseHexAccepts(hex);
  }

  /** The argument of a successful run is 160 hex digits of either case. */
  lemma SuccessfulArgument(p: Primitives, args: seq<string>)
    requires Main(p, args).exitCode == 0
    ensures |args| == 2 && |args[1]| == 2 * HeaderLen
    ensures forall i | 0 <= i < |args[1]| :: IsHexChar(args[1][i])
  {
    HeaderHex(args[1]);
  }

  /** Each way a run can fail, with the message it writes. */
  lemma MainFailureMessages(p: Primitives, args: seq<string>)
    requires |args| == 2
    ensures |args[1]| % 2 != 0 ==> Main(p, args) == Fail("hex string must have even length")
    ensures (|args[1]| % 2 == 0 && exists i | 0 <= i < |args[1]| :: !IsHexChar(args[1][i])) ==>
      Main(p, args) == Fail("invalid hex character")
    ensures ParseHex(args[1]).Success? && |args[1]| != 160 ==>
      Main(p, args) == Fail("header must be exactly 80 bytes (160 hex chars)")
    ensures (ParseHex(args[1]).Success? && |args[1]| == 160 &&
      p.argon2d(RinHashContext(p.blake3(ParseHex(args[1]).value))).status != Argon2Ok) ==>
      Main(p, args) == Fail("Argon2d hashing failed")
  {
    var hex := args[1];
    if |hex| % 2 == 0 {
      ParseHexAccepts(hex);
      if ParseHex(hex).Success? {
        assert |ParseHex(hex).value| == HeaderLen <==> |hex| == 160;
        TraceContextIsRinHashContext(p.blake3(ParseHex(hex).value));
      }
    }
  }

  /**
   * The tool's stages are the node's: on the same bytes they fail together,
   * and when the node's SHA3-256 agrees with the tool's on the Argon2d
   * output, they produce the same three digests.
   */
  lemma TraceStagesAreRinHashStages(p: Primitives, input: Bytes)
    ensures TraceStages(p, input).Success? <==> RinHashStages(p, input).Success?
    ensures (TraceStages(p, input).Success? &&
      p.sha3(TraceStages(p, input).value.argon2d) == Sha3_256(TraceStages(p, input).value.argon2d)) ==>
      TraceStages(p, input) == Success(RinHashStages(p, input).value)
  {
    TraceContextIsRinHashContext(p.blake3(input));
  }

  /** A successful run prints the report of the stages on the decoded argument, and nothing else. */
  lemma MainReport(p: Primitives, args: seq<string>)
    requires Main(p, args).exitCode == 0
    ensures TraceStages(p, ParseHex(args[1]).value).Success?
    ensures Main(p, args) == Run(0, Report(args[1], TraceStages(p, ParseHex(args[1]).value).value), [])
  {
  }

  /**
   * A successful run echoes its argument, and its last line is the header's
   * RinHash in lower-case hex, whenever the header serializes to the decoded
   * bytes and the node's SHA3-256 agrees with the tool's.
   */
  lemma MainReportsRinHash(p: Primitives, args: seq<string>, header: BlockHeader)
    requires Main(p, args).exitCode == 0
    requires |args| == 2 && ParseHex(args[1]).Success? && p.serialize(header) == ParseHex(args[1]).value
    requires forall d: Digest32 :: p.sha3(d) == Sha3_256(d)
    ensures RinHash(p, header).Success?
    ensures Main(p, args).stdout[0] == "input_header_hex=" + args[1]
    ensures Main(p, args).stdout[3] == "step3_sha3_256=" + ToHex(RinHash(p, header).value)
  {
    var input := ParseHex(args[1]).value;
    MainReport(p, args);
    TraceStagesAreRinHashStages(p, input);
  }

  /** Each digest line holds 64 lower-case hex digits that decode back to the digest. */
  lemma ReportDecodes(headerHex: string, s: Stages)
    ensures var lines := Report(headerHex, s);
      lines[1][13..] == ToHex(s.blake3) && ParseHex(lines[1][13..]) == Success(s.blake3) &&
      lines[2][18..] == ToHex(s.argon2d) && ParseHex(lines[2][18..]) == Success(s.argon2d) &&
      lines[3][15..] == ToHex(s.sha3) && ParseHex(lines[3][15..]) == Success(s.sha3) &&
      |lines[1]| == 13 + 64 && |lines[2]| == 18 + 64 && |lines[3]| == 15 + 64
  {
    ParseHexOfToHex(s.blake3);
    ParseHexOfToHex(s.argon2d);
    ParseHexOfToHex(s.sha3);
    var lines := Report(headerHex, s);
    assert lines[1][13..] == ToHex(s.blake3);
    assert lines[2][18..] == ToHex(s.argon2d);
    assert lines[3][15..] == ToHex(s.sha3);
  }

  /** The decoded header, printed back in hex, is the argument in lower case. */
  lemma DecodedHeaderIsArgument(args: seq<string>)
    requires |args| == 2 && ParseHex(args[1]).Success?
    ensures ToHex(ParseHex(args[1]).value) == LowerC(args[1])
  {
    ToHexOfParseHex(args[1]);
  }
}
