/**
 * `run_python_file`: three guards in a fixed order, then one run of
 * `python3` on the script, whose captured output is assembled into a report.
 * The child process itself is not modelled: what it comes back with is
 * given by a function from the requested invocation to its outcome.
 */
module ScriptRunner {
  import opened Wrappers
  import opened Text
  import opened PosixPath
  import opened PathGuard
  import opened FileSystem

  const TimeoutSeconds: nat := 30

  /** What `subprocess.run` comes back with, or the exception it raises. */
  datatype Outcome =
    | Completed(stdout: string, stderr: string, returncode: int)
    | TimedOut
    | Failed(reason: string)

  /** The child process asked for: its argument vector, its working directory, its timeout in seconds. */
  datatype Invocation = Invocation(argv: seq<string>, cwd: string, timeout: nat)

  function OutsideMessage(fp: string): string {
    "Error: Cannot execute \"" + fp + "\" as it is outside the permitted working directory"
  }

  function NotFoundMessage(fp: string): string {
    "Error: File \"" + fp + "\" not found."
  }

  function NotPythonMessage(fp: string): string {
    "Error: \"" + fp + "\" is not a Python file."
  }

  function FailureMessage(reason: string): string {
    "Error: executing Python file: " + reason
  }

  const TimeoutMessage: string := FailureMessage("Timeout after 30 seconds")

  const NoOutput := "No output produced."

  /** The guard chain: the refusal it returns, or the process to start. */
  function Plan(disk: Node, cwd: AbsPath, wd: string, fp: string): Result<Invocation, string> {
    if !Contained(cwd, wd, fp) then Err(OutsideMessage(fp))
    else
      var abs := Target(cwd, wd, fp);
      if !IsFile(disk, cwd, abs) then Err(NotFoundMessage(fp))
      else if !EndsWith(fp, ".py") then Err(NotPythonMessage(fp))
      else Ok(Invocation(["python3", Basename(abs)], Dirname(abs), TimeoutSeconds))
  }

  /** The parts of the report, in the order they are appended. */
  function Parts(stdout: string, stderr: string, returncode: int): seq<string> {
    (if stdout != "" then ["STDOUT:\n" + RStrip(stdout)] else [])
    + (if stderr != "" then ["STDERR:\n" + RStrip(stderr)] else [])
    + (if returncode != 0 then ["Process exited with code " + IntToString(returncode)] else [])
  }

  /** The report for a completed run: the parts joined by a blank line, or the no-output note. */
  function Report(stdout: string, stderr: string, returncode: int): string {
    var parts := Parts(stdout, stderr, returncode);
    if parts != [] then JoinWith("\n\n", parts) else NoOutput
  }

  /** The text returned once the process was started. */
  function Finish(outcome: Outcome): string {
    match outcome
    case Completed(stdout, stderr, returncode) => Report(stdout, stderr, returncode)
    case TimedOut => TimeoutMessage
    case Failed(reason) => FailureMessage(reason)
  }

  /** `run_python_file(working_directory, file_path)`, where `run` stands for the child process. */
  function Run(disk: Node, cwd: AbsPath, wd: string, fp: string, run: Invocation -> Outcome): string {
    match Plan(disk, cwd, wd, fp)
    case Err(refusal) => refusal
    case Ok(inv) => Finish(run(inv))
  }

  /** Builds the report as `run_python_file` does, appending to a list of parts. */
  method AssembleReport(stdout: string, stderr: string, returncode: int) returns (report: string)
    ensures report == Report(stdout, stderr, returncode)
  {
    var outputParts: seq<string> := [];
    if stdout != "" {
      outputParts := outputParts + ["STDOUT:\n" + RStrip(stdout)];
    }
    if stderr != "" {
      outputParts := outputParts + ["STDERR:\n" + RStrip(stderr)];
    }
    if returncode != 0 {
      outputParts := outputParts + ["Process exited with code " + IntToString(returncode)];
    }
    assert outputParts == Parts(stdout, stderr, returncode);
    if outputParts != [] {
      report := JoinWith("\n\n", outputParts);
    } else {
      report := NoOutput;
    }
  }

  /** Starts the child process and turns what it comes back with into the returned text. */
  method Execute(inv: Invocation, run: Invocation -> Outcome) returns (result: string)
    ensures result == Finish(run(inv))
  {
    match run(inv)
    case Completed(stdout, stderr, returncode) =>
      result := AssembleReport(stdout, stderr, returncode);
    case TimedOut =>
      result := TimeoutMessage;
    case Failed(reason) =>
      result := FailureMessage(reason);
  }

  method RunPythonFile(disk: Node, cwd: AbsPath, wd: string, fp: string, run: Invocation -> Outcome)
    returns (result: string)
    ensures result == Run(disk, cwd, wd, fp, run)
  {
    match Plan(disk, cwd, wd, fp)
    case Err(refusal) =>
      result := refusal;
    case Ok(inv) =>
      result := Execute(inv, run);
  }

  // ---------------------------------------------------------------------
  // The guards

  /**
   * The guards pass exactly when the target is inside the working directory,
   * names an existing regular file, and the argument as given ends in
   * `.py`; each failing guard gives its own refusal, the first one first.
   */
  lemma PlanGuards(disk: Node, cwd: AbsPath, wd: string, fp: string)
    requires disk.Dir?
    ensures var abs := Target(cwd, wd, fp);
      var plan := Plan(disk, cwd, wd, fp);
      (plan.Ok? <==> Contained(cwd, wd, fp) && IsFileAt(disk, Components(abs)) && EndsWith(fp, ".py"))
      && (!Contained(cwd, wd, fp) ==> plan == Err(OutsideMessage(fp)))
      && (Contained(cwd, wd, fp) && !IsFileAt(disk, Components(abs)) ==> plan == Err(NotFoundMessage(fp)))
      && (Contained(cwd, wd, fp) && IsFileAt(disk, Components(abs)) && !EndsWith(fp, ".py")
          ==> plan == Err(NotPythonMessage(fp)))
  {
    IsFileOfAbspath(disk, cwd, Join(wd, fp));
  }

  /** A refused path never reaches the child process: the result does not depend on it. */
  lemma RefusalStartsNothing(disk: Node, cwd: AbsPath, wd: string, fp: string, run1: Invocation -> Outcome, run2: Invocation -> Outcome)
    requires Plan(disk, cwd, wd, fp).Err?
    ensures Run(disk, cwd, wd, fp, run1) == Run(disk, cwd, wd, fp, run2) == Plan(disk, cwd, wd, fp).error
  {
  }

  /** The containment guard comes first: an outside path is refused whatever the disk holds. */
  lemma OutsideRefusedFirst(disk1: Node, disk2: Node, cwd: AbsPath, wd: string, fp: string,
                            run1: Invocation -> Outcome, run2: Invocation -> Outcome)
    requires !Contained(cwd, wd, fp)
    ensures Run(disk1, cwd, wd, fp, run1) == Run(disk2, cwd, wd, fp, run2) == OutsideMessage(fp)
  {
  }

  /** Existence is checked before the suffix: a missing `x.txt` in `/w` is reported as not found. */
  lemma MissingTextFileNotFound(disk: Node, cwd: AbsPath, run: Invocation -> Outcome)
    requires disk.Dir? && NodeAt(disk, ["w", "x.txt"]).None?
    ensures Run(disk, cwd, "/w", "x.txt", run) == NotFoundMessage("x.txt")
  {
    InsideW(cwd, "x.txt", "/w/x.txt", ["", "w", "x.txt"], ["w", "x.txt"]);
    PlanGuards(disk, cwd, "/w", "x.txt");
  }

  /**
   * The suffix test reads the argument as given: `a.py/.` names the script
   * `/w/a.py`, which exists, and is still refused as not a Python file.
   */
  lemma SuffixCheckedOnArgument(disk: Node, cwd: AbsPath, run: Invocation -> Outcome)
    requires disk.Dir? && IsFileAt(disk, ["w", "a.py"])
    ensures Run(disk, cwd, "/w", "a.py/.", run) == NotPythonMessage("a.py/.")
  {
    InsideW(cwd, "a.py/.", "/w/a.py/.", ["", "w", "a.py", "."], ["w", "a.py"]);
    assert !EndsWith("a.py/.", ".py") by {
      assert "a.py/."[5] != 'y';
    }
    PlanGuards(disk, cwd, "/w", "a.py/.");
  }

  /** A relative argument below `/w` whose normal form spells `/w/<names>`. */
  lemma InsideW(cwd: AbsPath, fp: string, joined: string, pieces: seq<string>, q: seq<string>)
    requires |fp| >= 1 && fp[0] != '/' && joined == "/w" + "/" + fp
    requires pieces != [] && forall i :: 0 <= i < |pieces| ==> '/' !in pieces[i]
    requires JoinWith("/", pieces) == joined
    requires NormFold([], pieces, true) == q && |q| >= 1 && q[0] == "w" && AllPlain(q)
    ensures Contained(cwd, "/w", fp)
    ensures Components(Target(cwd, "/w", fp)) == q
  {
    TargetBelowW(cwd, fp, joined, pieces, q);
    RootedBelowW(cwd, q);
  }

  lemma TargetBelowW(cwd: AbsPath, fp: string, joined: string, pieces: seq<string>, q: seq<string>)
    requires |fp| >= 1 && fp[0] != '/' && joined == "/w" + "/" + fp
    requires pieces != [] && forall i :: 0 <= i < |pieces| ==> '/' !in pieces[i]
    requires JoinWith("/", pieces) == joined
    requires NormFold([], pieces, true) == q
    ensures Target(cwd, "/w", fp) == "/" + JoinWith("/", q)
  {
    assert Join("/w", fp) == joined;
    assert joined[1] == 'w';
    assert InitialSlashes(joined) == "/";
    AbspathFromPieces(cwd, joined, pieces, q);
  }

  lemma RootedBelowW(cwd: AbsPath, q: seq<string>)
    requires |q| >= 1 && q[0] == "w" && AllPlain(q)
    ensures StartsWith("/" + JoinWith("/", q), Abspath(cwd, "/w"))
    ensures Components("/" + JoinWith("/", q)) == q
  {
    ComponentsRooted("/", q);
    AbspathOfW(cwd);
    var t := "/" + JoinWith("/", q);
    JoinWithStartsWithFirst("/", q);
    assert t[..2] == "/w";
  }

  // ---------------------------------------------------------------------
  // The invocation

  /**
   * When every guard passes, the child runs `python3 <basename>` from the
   * script's own directory with a 30 second timeout, that directory joined
   * with that name is the checked script, and the tool returns what that run
   * finishes with.
   */
  lemma InvocationRunsScript(disk: Node, cwd: AbsPath, wd: string, fp: string, run: Invocation -> Outcome)
    requires disk.Dir?
    requires Contained(cwd, wd, fp) && IsFile(disk, cwd, Target(cwd, wd, fp)) && EndsWith(fp, ".py")
    ensures var abs := Target(cwd, wd, fp);
      var inv := Invocation(["python3", Basename(abs)], Dirname(abs), 30);
      Plan(disk, cwd, wd, fp) == Ok(inv)
      && Run(disk, cwd, wd, fp, run) == Finish(run(inv))
      && Components(abs) != []
      && Basename(abs) == Components(abs)[|Components(abs)| - 1]
      && Join(Dirname(abs), Basename(abs)) == abs
  {
    var abs := Target(cwd, wd, fp);
    PlanGuards(disk, cwd, wd, fp);
    TargetShape(cwd, wd, fp);
    var f := Components(abs);
    assert NodeAt(disk, []) == Some(disk);
    assert f != [];
    DirnameOfNormal(InitialSlashes(abs), f);
  }

  // ---------------------------------------------------------------------
  // The report

  /**
   * There is a `STDOUT:` part exactly when stdout is not empty, holding the
   * right-stripped text; likewise for `STDERR:`; and an exit note exactly
   * when the code is not zero; in that order.
   */
  lemma PartsPresent(stdout: string, stderr: string, returncode: int)
    ensures var ps := Parts(stdout, stderr, returncode);
      |ps| == (if stdout != "" then 1 else 0) + (if stderr != "" then 1 else 0) + (if returncode != 0 then 1 else 0)
      && (stdout != "" <==> exists i :: 0 <= i < |ps| && StartsWith(ps[i], "STDOUT:\n"))
      && (stderr != "" <==> exists i :: 0 <= i < |ps| && StartsWith(ps[i], "STDERR:\n"))
      && (returncode != 0 <==> exists i :: 0 <= i < |ps| && StartsWith(ps[i], "Process exited with code "))
      && (forall i :: 0 <= i < |ps| && StartsWith(ps[i], "STDOUT:\n") ==> i == 0 && ps[i] == "STDOUT:\n" + RStrip(stdout))
      && (forall i :: 0 <= i < |ps| && StartsWith(ps[i], "STDERR:\n") ==>
            i == (if stdout != "" then 1 else 0) && ps[i] == "STDERR:\n" + RStrip(stderr))
      && (forall i :: 0 <= i < |ps| && StartsWith(ps[i], "Process exited with code ") ==>
            i == |ps| - 1 && ps[i] == "Process exited with code " + IntToString(returncode))
  {
    var ps := Parts(stdout, stderr, returncode);
    PartKinds(stdout, stderr, returncode);
    var no := if stdout != "" then 1 else 0;
    var ne := if stderr != "" then 1 else 0;
    if stdout != "" {
      assert StartsWith(ps[0], "STDOUT:\n");
    }
    if stderr != "" {
      assert StartsWith(ps[no], "STDERR:\n");
    }
    if returncode != 0 {
      assert StartsWith(ps[no + ne], "Process exited with code ");
    }
  }

  /** Which part sits at which index: the stdout part first, then the stderr part, then the exit note. */
  lemma PartKinds(stdout: string, stderr: string, returncode: int)
    ensures var ps := Parts(stdout, stderr, returncode);
      var no := if stdout != "" then 1 else 0;
      var ne := if stderr != "" then 1 else 0;
      |ps| == no + ne + (if returncode != 0 then 1 else 0)
      && (forall i :: 0 <= i < |ps| ==>
            (StartsWith(ps[i], "STDOUT:\n") <==> i < no)
            && (StartsWith(ps[i], "STDERR:\n") <==> no <= i < no + ne)
            && (StartsWith(ps[i], "Process exited with code ") <==> no + ne <= i))
      && (forall i :: 0 <= i < no ==> ps[i] == "STDOUT:\n" + RStrip(stdout))
      && (forall i :: no <= i < no + ne ==> ps[i] == "STDERR:\n" + RStrip(stderr))
      && (forall i :: no + ne <= i < |ps| ==> ps[i] == "Process exited with code " + IntToString(returncode))
  {
    var o := if stdout != "" then ["STDOUT:\n" + RStrip(stdout)] else [];
    var e := if stderr != "" then ["STDERR:\n" + RStrip(stderr)] else [];
    var x := if returncode != 0 then ["Process exited with code " + IntToString(returncode)] else [];
    var ps := o + e + x;
    assert ps == Parts(stdout, stderr, returncode);
    OutPartTag(RStrip(stdout));
    ErrPartTag(RStrip(stderr));
    ExitPartTag(IntToString(returncode));
    forall i | 0 <= i < |ps|
      ensures StartsWith(ps[i], "STDOUT:\n") <==> i < |o|
      ensures StartsWith(ps[i], "STDERR:\n") <==> |o| <= i < |o| + |e|
      ensures StartsWith(ps[i], "Process exited with code ") <==> |o| + |e| <= i
    {
      if i < |o| {
        assert ps[i] == o[0];
      } else if i < |o| + |e| {
        assert ps[i] == e[0];
      } else {
        assert ps[i] == x[0];
      }
    }
  }

  lemma OutPartTag(t: string)
    ensures var p := "STDOUT:\n" + t;
      StartsWith(p, "STDOUT:\n") && !StartsWith(p, "STDERR:\n") && !StartsWith(p, "Process exited with code ")
  {
    var p := "STDOUT:\n" + t;
    assert p[..8] == "STDOUT:\n";
    assert p[0] == 'S' && p[3] == 'O';
  }

  lemma ErrPartTag(t: string)
    ensures var p := "STDERR:\n" + t;
      !StartsWith(p, "STDOUT:\n") && StartsWith(p, "STDERR:\n") && !StartsWith(p, "Process exited with code ")
  {
    var p := "STDERR:\n" + t;
    assert p[..8] == "STDERR:\n";
    assert p[0] == 'S' && p[3] == 'E';
  }

  lemma ExitPartTag(t: string)
    ensures var p := "Process exited with code " + t;
      !StartsWith(p, "STDOUT:\n") && !StartsWith(p, "STDERR:\n") && StartsWith(p, "Process exited with code ")
  {
    var p := "Process exited with code " + t;
    assert p[..25] == "Process exited with code ";
    assert p[0] == 'P';
  }

  /** The report is exactly the no-output note when both streams are empty and the code is zero, and only then. */
  lemma NoOutputIff(stdout: string, stderr: string, returncode: int)
    ensures Report(stdout, stderr, returncode) == NoOutput <==> stdout == "" && stderr == "" && returncode == 0
  {
    var ps := Parts(stdout, stderr, returncode);
    if ps != [] {
      JoinWithStartsWithFirst("\n\n", ps);
      FirstPartLetter(stdout, stderr, returncode);
      assert NoOutput[0] == 'N';
    }
  }

  /** Every part starts with `S` (`STDOUT:`, `STDERR:`) or `P` (`Process exited`). */
  lemma FirstPartLetter(stdout: string, stderr: string, returncode: int)
    requires Parts(stdout, stderr, returncode) != []
    ensures var p := Parts(stdout, stderr, returncode)[0]; p != "" && (p[0] == 'S' || p[0] == 'P')
  {
  }

  /** A report never starts like an error, so it is never mistaken for the timeout or failure text. */
  lemma ReportIsNotAnError(stdout: string, stderr: string, returncode: int, reason: string)
    ensures var r := Report(stdout, stderr, returncode);
      r != "" && r[0] != 'E'
      && r != TimeoutMessage && r != FailureMessage(reason)
  {
    var ps := Parts(stdout, stderr, returncode);
    if ps != [] {
      JoinWithStartsWithFirst("\n\n", ps);
      FirstPartLetter(stdout, stderr, returncode);
    }
    ErrorsStartWithE(reason);
  }

  lemma ErrorsStartWithE(reason: string)
    ensures TimeoutMessage[0] == 'E' && FailureMessage(reason)[0] == 'E'
  {
  }

  /** A timeout gives the fixed text, with none of the output. */
  lemma TimeoutIgnoresOutput(disk: Node, cwd: AbsPath, wd: string, fp: string, run: Invocation -> Outcome)
    requires Plan(disk, cwd, wd, fp).Ok? && run(Plan(disk, cwd, wd, fp).value) == TimedOut
    ensures Run(disk, cwd, wd, fp, run) == TimeoutMessage
  {
  }

  /** The emptiness test is made before stripping: whitespace-only stdout still gives an empty `STDOUT:` part. */
  lemma BlankStdoutKept(stdout: string, stderr: string, returncode: int)
    requires stdout != "" && forall i :: 0 <= i < |stdout| ==> IsSpace(stdout[i])
    ensures Parts(stdout, stderr, returncode)[0] == "STDOUT:\n"
  {
    RStripOfBlank(stdout);
  }

  /** The exit note gives back the return code. */
  lemma ExitNoteNamesCode(returncode: int)
    requires returncode != 0
    ensures var note := "Process exited with code " + IntToString(returncode);
      ParseInt(note[25..]) == returncode
  {
    var note := "Process exited with code " + IntToString(returncode);
    assert note[25..] == IntToString(returncode);
    IntToStringRoundTrip(returncode);
  }
}
