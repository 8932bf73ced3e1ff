/**
 * What the outside world can do to a conversion: the bytes it hands back,
 * the Python exceptions the adapters see or raise, and the abstract results
 * of running an external program or fetching a URL.
 */
module Outcomes {

  newtype byte = x: int | 0 <= x < 256
  type bytes = seq<byte>

  /** The exceptions that can leave an adapter. */
  datatype Exc =
    | CalledProcessError(returnCode: int, output: bytes)  // `subprocess.run(..., check=True)` saw a non-zero exit
    | IndexError                                           // `[0]` on an empty glob listing
    | UnicodeDecodeError                                   // captured tool output is not UTF-8
    | FileNotFoundError(path: string)                      // `open(path, "rb")` on a missing file
    | Unexpected(name: string)                             // anything else, carried through unchanged

  /** An adapter either produces a value or lets an exception escape. */
  datatype Outcome<+T> = Done(value: T) | Raised(exc: Exc)

  /**
   * How `subprocess.run` came back: the program ran and exited with a status
   * (its combined or captured output alongside), or launching it raised.
   */
  datatype RunOutcome = Exited(returnCode: int, output: bytes) | Crashed(name: string)

  /** `subprocess.run(..., check=True)` returns normally. */
  predicate CleanExit(run: RunOutcome) {
    run.Exited? && run.returnCode == 0
  }

  /** A network fetch (`requests.get`/`requests.post` and the write that follows). */
  datatype FetchOutcome<+T> = Fetched(value: T) | FetchRaised(name: string)

  predicate InRange(b: byte, lo: int, hi: int) {
    lo <= b as int <= hi
  }

  predicate IsContinuation(b: byte) {
    InRange(b, 0x80, 0xBF)
  }

  /**
   * Strict UTF-8 well-formedness, as `bytes.decode("utf-8")` accepts it:
   * the well-formed byte sequences of table 3-7 of the Unicode Standard
   * (no overlong forms, no surrogates, nothing above U+10FFFF).
   */
  predicate IsUtf8(b: bytes)
    decreases |b|
  {
    if |b| == 0 then true
    else if InRange(b[0], 0x00, 0x7F) then IsUtf8(b[1..])
    else if InRange(b[0], 0xC2, 0xDF) then
      |b| >= 2 && IsContinuation(b[1]) && IsUtf8(b[2..])
    else if InRange(b[0], 0xE0, 0xEF) then
      && |b| >= 3
      && (if b[0] == 0xE0 then InRange(b[1], 0xA0, 0xBF)
          else if b[0] == 0xED then InRange(b[1], 0x80, 0x9F)
          else IsContinuation(b[1]))
      && IsContinuation(b[2])
      && IsUtf8(b[3..])
    else if InRange(b[0], 0xF0, 0xF4) then
      && |b| >= 4
      && (if b[0] == 0xF0 then InRange(b[1], 0x90, 0xBF)
          else if b[0] == 0xF4 then InRange(b[1], 0x80, 0x8F)
          else IsContinuation(b[1]))
      && IsContinuation(b[2])
      && IsContinuation(b[3])
      && IsUtf8(b[4..])
    else false
  }

  /** ASCII text is always valid UTF-8, so a tool that prints ASCII never trips the decode. */
  lemma {:induction false} AsciiIsUtf8(b: bytes)
    requires forall i :: 0 <= i < |b| ==> b[i] < 0x80
    ensures IsUtf8(b)
    decreases |b|
  {
    if |b| > 0 {
      AsciiIsUtf8(b[1..]);
    }
  }

  /** A lone continuation byte or a stray 0xFF makes the decode fail. */
  lemma InvalidLeadBytes(b: bytes)
    requires |b| > 0 && (IsContinuation(b[0]) || b[0] == 0xC0 || b[0] == 0xC1 || b[0] >= 0xF5)
    ensures !IsUtf8(b)
  {
  }
}
