/** The progress lines both copy loops print. */
module ProgressReports {
  import opened Bytes

  /** Mebibytes at the last report, and the byte counts at which a line was printed. */
  datatype Progress = Progress(lastMib: nat, printed: seq<nat>)

  const NO_REPORTS := Progress(0, [])

  /** One turn of either loop, after `total` has been brought up to date. */
  function Report(p: Progress, total: nat, fileSize: nat): Progress {
    var mib := total / MEBIBYTE;
    if mib >= p.lastMib + 64 || total == fileSize then Progress(mib, p.printed + [total]) else p
  }

  function LastReport(p: Progress): nat {
    if p.printed == [] then 0 else p.printed[|p.printed| - 1]
  }

  /** What holds after every turn. */
  predicate Amortised(p: Progress, total: nat, fileSize: nat) {
    && (forall n | n in p.printed :: n <= total)
    && p.lastMib == LastReport(p) / MEBIBYTE
    && |p.printed| <= p.lastMib / 64 + (if fileSize in p.printed then 1 else 0)
    && total < LastReport(p) + 64 * MEBIBYTE
    && (total == fileSize > 0 ==> LastReport(p) == fileSize)
  }

  lemma LastReportIsPast(p: Progress, total: nat)
    requires forall n | n in p.printed :: n <= total
    ensures LastReport(p) <= total
  {
    if p.printed != [] {
      assert LastReport(p) in p.printed;
    }
  }

  lemma ReportStaysAmortised(p: Progress, before: nat, total: nat, fileSize: nat)
    requires Amortised(p, before, fileSize) && before < total
    ensures Amortised(Report(p, total, fileSize), total, fileSize)
  {
    var q := Report(p, total, fileSize);
    if q != p {
      assert q.printed[|p.printed|] == total;
      LastReportIsPast(p, before);
      assert p.lastMib <= q.lastMib;
      assert fileSize in q.printed <==> fileSize in p.printed || fileSize == total;
    }
  }

  /** Reporting costs at most one line for every 64 MiB, plus one for the end of the file; it never
      lets 64 MiB go by in silence, and the end of a file that is not empty is always reported. */
  lemma FewLinesNoSilence(p: Progress, total: nat, fileSize: nat)
    requires Amortised(p, total, fileSize)
    ensures |p.printed| <= total / 67_108_864 + 1
    ensures total - LastReport(p) < 67_108_864
    ensures total == fileSize > 0 ==> p.printed != [] && p.printed[|p.printed| - 1] == fileSize
  {
    LastReportIsPast(p, total);
  }

  /** A line is printed in a turn only for 64 more mebibytes or for the end, and it shows the bytes so far. */
  lemma LinesAreEarned(p: Progress, total: nat, fileSize: nat)
    ensures var q := Report(p, total, fileSize);
      && (q.printed == p.printed || q.printed == p.printed + [total])
      && (q.printed != p.printed ==> total == fileSize || total / 1_048_576 >= p.lastMib + 64)
  {
  }
}
