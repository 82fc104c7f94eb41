/** The command executor of the agent endpoint (`AgentEndpoint._execute_command`).
    The shell is an oracle: a function from the command line actually handed to
    `/bin/bash` to what the process reported. What remains is the decision between
    raising a RemoteCommandError and returning a 2- or 3-tuple. */
module Command {
  import opened PyText
  import opened Exceptions
  import opened Outcomes

  /** What a finished process reports: `p.returncode` and the pair from `p.communicate()`. */
  datatype ProcessResult = ProcessResult(retCode: int, stdout: Bytes, stderr: Bytes)

  /** The value `_execute_command` returns: `(ret_code, stdout)`, or
      `(ret_code, stdout, stderr)` when `get_stderr` is set. */
  datatype CommandReturn =
    | Pair(retCode: int, stdout: Bytes)
    | Triple(retCode: int, stdout: Bytes, stderr: Bytes)

  /** `'sudo bash -c "%s"'` around its `%s`. */
  const SudoHead: Bytes := "sudo bash -c \""
  const SudoTail: Bytes := "\""

  /** The command line handed to the shell: wrapped in `sudo bash -c "..."` when the
      command is to run as root, unchanged otherwise. No quoting is applied. */
  function EffectiveCommand(cmd: Bytes, runAsRoot: bool): (r: Bytes)
    ensures !runAsRoot ==> r == cmd
    ensures runAsRoot ==>
              |r| == |SudoHead| + |cmd| + 1 && r[..|SudoHead|] == SudoHead &&
              r[|SudoHead|..|r| - 1] == cmd && r[|r| - 1] == '"'
  {
    if runAsRoot then
      var r := SudoHead + cmd + SudoTail;
      assert r[..|SudoHead|] == SudoHead;
      assert r[|SudoHead|..|r| - 1] == cmd;
      r
    else cmd
  }

  /** `_execute_command(cmd, run_as_root, get_stderr, raise_when_error)` with the
      RemoteCommandError class the source means to raise. `run` answers for the
      subprocess. */
  function ExecuteCommand(cmd: Bytes, runAsRoot: bool, getStderr: bool, raiseWhenError: bool,
                          run: Bytes -> ProcessResult): (r: Outcome<CommandReturn>)
    ensures var line := EffectiveCommand(cmd, runAsRoot);
            var p := run(line);
            (r.Raised? <==> p.retCode != 0 && raiseWhenError) &&
            (r.Raised? ==>
               r.error == CommandFailed(NewRemoteCommandError(line, Some(p.retCode), p.stdout, p.stderr))) &&
            (r.Returned? ==>
               r.value.retCode == p.retCode && r.value.stdout == p.stdout &&
               (r.value.Triple? <==> getStderr) &&
               (r.value.Triple? ==> r.value.stderr == p.stderr))
  {
    var line := EffectiveCommand(cmd, runAsRoot);
    var p := run(line);
    if p.retCode != 0 && raiseWhenError then
      Raised(CommandFailed(NewRemoteCommandError(line, Some(p.retCode), p.stdout, p.stderr)))
    else if getStderr then
      Returned(Triple(p.retCode, p.stdout, p.stderr))
    else
      Returned(Pair(p.retCode, p.stdout))
  }

  /** A zero return code never raises, whatever `raise_when_error` says. */
  lemma ZeroReturnCodeNeverRaises(cmd: Bytes, runAsRoot: bool, getStderr: bool, raiseWhenError: bool,
                                  run: Bytes -> ProcessResult)
    requires run(EffectiveCommand(cmd, runAsRoot)).retCode == 0
    ensures var p := run(EffectiveCommand(cmd, runAsRoot));
            ExecuteCommand(cmd, runAsRoot, getStderr, raiseWhenError, run) ==
              Returned(if getStderr then Triple(0, p.stdout, p.stderr) else Pair(0, p.stdout))
  {
  }

  /** With `raise_when_error` unset, a failing command returns normally with its
      non-zero code first. */
  lemma FailureReturnedWhenNotRaising(cmd: Bytes, runAsRoot: bool, getStderr: bool,
                                      run: Bytes -> ProcessResult)
    requires run(EffectiveCommand(cmd, runAsRoot)).retCode != 0
    ensures var r := ExecuteCommand(cmd, runAsRoot, getStderr, false, run);
            r.Returned? && r.value.retCode == run(EffectiveCommand(cmd, runAsRoot)).retCode &&
            r.value.retCode != 0
  {
  }

  /** The raised error describes the command line that actually ran (with the sudo
      wrapper when there was one), its return code, and its outputs as ASCII; its
      message starts with the header naming that command line. */
  lemma RaisedErrorDescribesCommand(cmd: Bytes, runAsRoot: bool, getStderr: bool,
                                    run: Bytes -> ProcessResult)
    requires run(EffectiveCommand(cmd, runAsRoot)).retCode != 0
    ensures var line, p := EffectiveCommand(cmd, runAsRoot), run(EffectiveCommand(cmd, runAsRoot));
            var r := ExecuteCommand(cmd, runAsRoot, getStderr, true, run);
            r.Raised? && r.error.CommandFailed? &&
            r.error.error.cmd == line && r.error.error.retCode == Some(p.retCode) &&
            r.error.error.stdout == Degrade(p.stdout) && r.error.error.stderr == Degrade(p.stderr) &&
            |r.error.error.message| >= |CommandHeader(line)| &&
            r.error.error.message[..|CommandHeader(line)|] == CommandHeader(line)
  {
    var line, p := EffectiveCommand(cmd, runAsRoot), run(EffectiveCommand(cmd, runAsRoot));
    MessageStartsWithHeader(line, Some(p.retCode), Degrade(p.stdout), Degrade(p.stderr));
  }

  /** A raised command error always reports the return code: the code that made it
      raise is non-zero, so it is truthy, and the message reads it back. */
  lemma RaisedErrorShowsReturnCode(cmd: Bytes, runAsRoot: bool, getStderr: bool,
                                   run: Bytes -> ProcessResult)
    requires run(EffectiveCommand(cmd, runAsRoot)).retCode != 0
    ensures var line, p := EffectiveCommand(cmd, runAsRoot), run(EffectiveCommand(cmd, runAsRoot));
            var r := ExecuteCommand(cmd, runAsRoot, getStderr, true, run);
            var m, h := r.error.error.message, |CommandHeader(line)|;
            r.Raised? && r.error.CommandFailed? &&
            |m| >= h + |ReturnCodeLabel| && m[h..h + |ReturnCodeLabel|] == ReturnCodeLabel
  {
    var line, p := EffectiveCommand(cmd, runAsRoot), run(EffectiveCommand(cmd, runAsRoot));
    ReturnCodeShownIffTruthy(line, Some(p.retCode), Degrade(p.stdout), Degrade(p.stderr));
  }

  // ---------------------------------------------------------------------------
  // As written: agent.py raises `ex.RemoteCommandException`, a name the exceptions
  // module does not define. Looking it up raises AttributeError before any
  // exception object is built.

  const MissingClassText: Bytes := "'module' object has no attribute " + "'RemoteCommandException'"

  /** `_execute_command` exactly as written, with the misspelt exception class. */
  function ExecuteCommandAsWritten(cmd: Bytes, runAsRoot: bool, getStderr: bool, raiseWhenError: bool,
                                   run: Bytes -> ProcessResult): (r: Outcome<CommandReturn>)
    ensures r.Raised? ==> r.error == AttributeError(MissingClassText)
  {
    var p := run(EffectiveCommand(cmd, runAsRoot));
    if p.retCode != 0 && raiseWhenError then
      Raised(AttributeError(MissingClassText))
    else if getStderr then
      Returned(Triple(p.retCode, p.stdout, p.stderr))
    else
      Returned(Pair(p.retCode, p.stdout))
  }

  /** The two versions agree whenever nothing is raised; on the raising path the
      written code never produces the command error the caller is promised. */
  lemma AsWrittenDiffersOnlyWhenRaising(cmd: Bytes, runAsRoot: bool, getStderr: bool, raiseWhenError: bool,
                                        run: Bytes -> ProcessResult)
    ensures var w, c := ExecuteCommandAsWritten(cmd, runAsRoot, getStderr, raiseWhenError, run),
                        ExecuteCommand(cmd, runAsRoot, getStderr, raiseWhenError, run);
            (w.Raised? <==> c.Raised?) &&
            (c.Returned? ==> w == c) &&
            (c.Raised? ==> c.error.CommandFailed? && w.error.AttributeError?)
  {
  }

  /** `exit 7` with `raise_when_error` set: the intended code raises a
      RemoteCommandError with return code 7, the written code an AttributeError. */
  lemma ExitSevenShowsMisspeltClass()
    ensures var run := (line: Bytes) => ProcessResult(7, [], []);
            ExecuteCommandAsWritten("exit 7", false, false, true, run) == Raised(AttributeError(MissingClassText)) &&
            ExecuteCommand("exit 7", false, false, true, run).Raised? &&
            ExecuteCommand("exit 7", false, false, true, run).error.error.retCode == Some(7)
  {
  }

  /** `echo hi`: the command succeeds and `(0, "hi\n")` comes back. */
  lemma EchoHiReturnsOutput()
    ensures var run := (line: Bytes) => ProcessResult(0, "hi\n", []);
            ExecuteCommand("echo hi", false, false, true, run) == Returned(Pair(0, "hi\n"))
  {
  }
}
