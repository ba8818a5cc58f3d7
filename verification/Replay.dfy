/** The results of replaying a recording, as both directions of the comparison
    read them, and the exit codes every command shares. */
module Replay {
  datatype Kind = KindStatus | KindAbsent | KindType | KindValue | KindOrder | KindRedacted | KindExcused

  datatype Finding = Finding(kind: Kind, path: string, want: string, got: string)

  datatype Verdict = Matched | Divergent | Unserved | Skipped | Refused

  datatype ReplayResult = ReplayResult(
    seqNo: int, operation: string, verdict: Verdict, findings: seq<Finding>, status: int, refused: string)

  const EXIT_OK := 0
  const EXIT_ERROR := 1
  const EXIT_DRIFT := 2
}
