/** Writing the last report while a signal may still arrive (scripts/sustained_use.py,
    `Interruption` and `finish_report`). */
module FinishReport {
  import opened Wrappers

  datatype Report = Report(result: string, interrupted: bool, signum: Option<nat>)

  /** A report marked with what the flag held. */
  function Stamp(report: Report, flag: Option<nat>): Report {
    match flag
    case None => report.(interrupted := false)
    case Some(_) =>
      Report(if report.result != "failed" then "interrupted" else "failed", true, flag)
  }

  function ExitCode(report: Report): int {
    if report.result == "interrupted" then 130 else if report.result != "passed" then 1 else 0
  }

  /** 130 exactly when the run was cut short and had not already failed, whether the signal or
      the run itself says so; 0 exactly when it passed and no signal came. */
  lemma ExitCodeTells(report: Report, flag: Option<nat>)
    ensures ExitCode(Stamp(report, flag)) == 130 <==> (flag.Some? && report.result != "failed") || report.result == "interrupted"
    ensures ExitCode(Stamp(report, flag)) == 0 <==> flag.None? && report.result == "passed"
    ensures ExitCode(Stamp(report, flag)) in {0, 1, 130}
    ensures report.result == "failed" ==> Stamp(report, flag).result == "failed"
    ensures Stamp(report, flag).interrupted == flag.Some? && (flag.Some? ==> Stamp(report, flag).signum == flag)
  {
    assert "interrupted"[0] != "failed"[0];
    assert "interrupted"[0] != "passed"[0];
  }

  /** The handler keeps the first signal only. */
  class Interruption {
    var signum: Option<nat>

    constructor ()
      ensures signum == None
    {
      signum := None;
    }

    method Record(number: nat)
      modifies this
      ensures signum == if old(signum).None? then Some(number) else old(signum)
    {
      if signum.None? {
        signum := Some(number);
      }
    }

    /** Any number of signals may arrive here. */
    method Elapse()
      modifies this
      ensures old(signum).Some? ==> signum == old(signum)
    {
      if * {
        var number: nat := *;
        Record(number);
      }
    }
  }

  /** `finish_report`; `checked` is what the flag held at the last check. A signal that had
      arrived by then is in the last report saved, and one more save is always enough. */
  method Finish(initial: Report, interrupted: Interruption)
    returns (code: int, saves: seq<Report>, checked: Option<nat>)
    modifies interrupted
    ensures 1 <= |saves| <= 2
    ensures saves[|saves| - 1] == Stamp(initial, checked) && code == ExitCode(saves[|saves| - 1])
    ensures old(interrupted.signum).Some? ==> checked == old(interrupted.signum) && |saves| == 1
    ensures checked.Some? ==> interrupted.signum == checked
    ensures |saves| == 2 ==> saves[0] == Stamp(initial, None) && checked.Some?
  {
    var report := initial;
    saves := [];
    while true
      invariant |saves| <= 1
      invariant old(interrupted.signum).Some? ==> interrupted.signum == old(interrupted.signum) && saves == []
      invariant saves == [] ==> report == initial
      invariant |saves| == 1 ==> saves[0] == report == Stamp(initial, None) && interrupted.signum.Some?
      decreases 1 - |saves|
    {
      interrupted.Elapse();
      var signum := interrupted.signum;
      report := report.(interrupted := signum.Some?);
      if signum.Some? {
        report := report.(signum := signum);
        if report.result != "failed" {
          report := report.(result := "interrupted");
        }
      }
      interrupted.Elapse();
      saves := saves + [report];
      interrupted.Elapse();
      checked := interrupted.signum;
      if checked == signum {
        break;
      }
    }
    interrupted.Elapse();
    code := ExitCode(report);
  }
}
