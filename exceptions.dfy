/** The exception vocabulary of the guest agent (savanna/exceptions.py): the
    project's base exception, the remote exceptions that degrade their text to
    ASCII, and the command-failure exception that builds its multi-line message. */
module Exceptions {
  import opened PyText

  // ---------------------------------------------------------------------------
  // SavannaException

  /** An instance of SavannaException or a subclass: the class attributes `code`
      and `message` that the subclass defines. */
  datatype SavannaException = SavannaException(code: Bytes, message: Bytes) {

    /** `__str__`: the human-readable message alone. */
    function Str(): (r: Bytes)
      ensures r == message
    {
      message
    }

    /** The single argument `__init__` hands to `Exception`: `'%s: %s' % (code, message)`. */
    function Arg(): (r: Bytes)
      ensures |r| == |code| + 2 + |message|
      ensures r[..|code|] == code && r[|code|..|code| + 2] == ": "
      ensures r[|code| + 2..] == Str()
    {
      code + ": " + message
    }
  }

  /** Two exceptions with the same code give the same argument only when their
      messages agree: the argument determines the message. */
  lemma ArgDeterminesMessage(a: SavannaException, b: SavannaException)
    requires a.code == b.code && a.Arg() == b.Arg()
    ensures a.Str() == b.Str()
  {
    assert a.Arg()[|a.code| + 2..] == b.Arg()[|b.code| + 2..];
  }

  // ---------------------------------------------------------------------------
  // RemoteError and RemoteConnectionError

  /** What RemoteError reads off a wrapped exception: `type(exc).__module__`,
      `type(exc).__name__` and `str(exc)`. A Python exception object is always truthy. */
  datatype ExcInfo = ExcInfo(moduleName: Bytes, name: Bytes, text: Bytes)

  /** Which class of the RemoteError family was raised. */
  datatype RemoteClass = RemoteErrorClass | RemoteConnectionErrorClass

  /** A RemoteError instance: its class and the argument passed to `Exception`
      (which is also what `str()` of it gives). */
  datatype RemoteError = RemoteError(cls: RemoteClass, text: Bytes)

  /** The message before degradation: the formatted wrapped exception when one is
      given (the `msg` argument is then ignored), the `msg` argument otherwise. */
  function RemoteErrorMessage(exc: Option<ExcInfo>, msg: Bytes): (r: Bytes)
    ensures exc.None? ==> r == msg
    ensures exc.Some? ==>
              var m, n, t := exc.value.moduleName, exc.value.name, exc.value.text;
              |r| == |m| + 1 + |n| + 2 + |t| &&
              r[..|m|] == m && r[|m|] == '.' && r[|m| + 1..|m| + 1 + |n|] == n &&
              r[|m| + 1 + |n|..|m| + 3 + |n|] == ": " && r[|m| + 3 + |n|..] == t
  {
    match exc
    case Some(e) => e.moduleName + "." + e.name + ": " + e.text
    case None => msg
  }

  /** With a wrapped exception the `msg` argument plays no part: it is overwritten
      before it is used. */
  lemma WrappedMessageIgnoresMsg(cls: RemoteClass, e: ExcInfo, msg1: Bytes, msg2: Bytes)
    ensures RemoteErrorMessage(Some(e), msg1) == RemoteErrorMessage(Some(e), msg2)
    ensures NewRemoteError(cls, Some(e), msg1) == NewRemoteError(cls, Some(e), msg2)
  {
  }

  /** `RemoteError.__init__(exc, msg)` (shared by RemoteConnectionError). */
  function NewRemoteError(cls: RemoteClass, exc: Option<ExcInfo>, msg: Bytes): (e: RemoteError)
    ensures e.cls == cls
    ensures AllAscii(e.text)
    ensures |e.text| <= |RemoteErrorMessage(exc, msg)|
  {
    RemoteError(cls, Degrade(RemoteErrorMessage(exc, msg)))
  }

  /** An ASCII message is kept as it is. */
  lemma RemoteErrorKeepsAsciiMessage(cls: RemoteClass, msg: Bytes)
    requires AllAscii(msg)
    ensures NewRemoteError(cls, None, msg).text == msg
  {
    DegradeFixesAscii(msg);
  }

  /** A wrapped exception degrades part by part: its module, name and text each lose
      their non-ASCII bytes, and the separators survive. */
  lemma WrappedExceptionText(cls: RemoteClass, exc: ExcInfo, msg: Bytes)
    ensures NewRemoteError(cls, Some(exc), msg).text ==
            Degrade(exc.moduleName) + "." + Degrade(exc.name) + ": " + Degrade(exc.text)
  {
    DegradeConcat(exc.moduleName + "." + exc.name + ": ", exc.text);
    DegradeConcat(exc.moduleName + "." + exc.name, ": ");
    DegradeConcat(exc.moduleName + ".", exc.name);
    DegradeConcat(exc.moduleName, ".");
    DegradeFixesAscii(".");
    DegradeFixesAscii(": ");
  }

  /** Degrading a RemoteError's text again changes nothing. */
  lemma RemoteErrorTextStable(cls: RemoteClass, exc: Option<ExcInfo>, msg: Bytes)
    ensures var e := NewRemoteError(cls, exc, msg); Degrade(e.text) == e.text
  {
    DegradeIdempotent(RemoteErrorMessage(exc, msg));
  }

  // ---------------------------------------------------------------------------
  // RemoteCommandError

  /** A RemoteCommandError instance: the stored fields, the `message` attribute
      built by `__init__`, and `text`, what RemoteError made of that message. */
  datatype RemoteCommandError = RemoteCommandError(
    cmd: Bytes, retCode: Option<int>, stdout: Bytes, stderr: Bytes,
    message: Bytes, text: Bytes)

  /** The class attribute `message` is `Error during command execution: "%s"`;
      these are its two halves around the `%s`. */
  const TemplateHead: Bytes := "Error during command execution: \""
  const TemplateTail: Bytes := "\""
  /** The literal prefixes of the appended sections. */
  const ReturnCodeLabel: Bytes := "\nReturn code: "
  const StderrLabel: Bytes := "\nSTDERR:\n"
  const StdoutLabel: Bytes := "\nSTDOUT:\n"

  /** The class attribute `message` with `cmd` substituted for its `%s`. */
  function CommandHeader(cmd: Bytes): Bytes {
    TemplateHead + cmd + TemplateTail
  }

  /** Python truthiness of `ret_code`: neither None nor zero. */
  predicate Truthy(retCode: Option<int>) {
    retCode.Some? && retCode.value != 0
  }

  /** The return-code line, present only when the return code is truthy. */
  function ReturnCodeSection(retCode: Option<int>): Bytes {
    if Truthy(retCode) then ReturnCodeLabel + IntStr(retCode.value) else []
  }

  /** The return-code line is ASCII, and when present it holds the code in a form that
      reads back as the same number. */
  lemma ReturnCodeReadsBack(retCode: Option<int>)
    ensures var r := ReturnCodeSection(retCode);
            (r == [] <==> !Truthy(retCode)) && AllAscii(r) &&
            (Truthy(retCode) ==>
               |r| > |ReturnCodeLabel| && r[..|ReturnCodeLabel|] == ReturnCodeLabel &&
               IsIntText(r[|ReturnCodeLabel|..]) && ParseInt(r[|ReturnCodeLabel|..]) == retCode.value)
  {
    if Truthy(retCode) {
      var digits := IntStr(retCode.value);
      IntStrRoundTrip(retCode.value);
      assert (ReturnCodeLabel + digits)[|ReturnCodeLabel|..] == digits;
      assert AllAscii(ReturnCodeLabel);
      ConcatAscii(ReturnCodeLabel, digits);
    }
  }

  lemma {:induction false} ConcatAscii(a: Bytes, b: Bytes)
    requires AllAscii(a) && AllAscii(b)
    ensures AllAscii(a + b)
  {
    forall i | 0 <= i < |a + b| ensures IsAscii((a + b)[i]) {
      if i >= |a| {
        assert (a + b)[i] == b[i - |a|];
      }
    }
  }

  /** A labelled output section, present only when the (degraded) output is non-empty. */
  function OutputSection(heading: Bytes, body: Bytes): Bytes {
    if body == [] then [] else heading + body
  }

  /** Everything after the header, in the fixed order: return code, STDERR, STDOUT. */
  function CommandTrailer(retCode: Option<int>, stdout: Bytes, stderr: Bytes): Bytes {
    ReturnCodeSection(retCode) + (OutputSection(StderrLabel, stderr) + OutputSection(StdoutLabel, stdout))
  }

  /** The message of a command failure, with `stdout` and `stderr` already degraded:
      nothing of the command or of either output is cut. */
  function CommandMessage(cmd: Bytes, retCode: Option<int>, stdout: Bytes, stderr: Bytes): (r: Bytes)
    ensures |r| >= |TemplateHead| + |cmd| + |TemplateTail| + |stderr| + |stdout|
  {
    CommandHeader(cmd) + CommandTrailer(retCode, stdout, stderr)
  }

  lemma Split(a: Bytes, b: Bytes)
    ensures |a + b| == |a| + |b| && (a + b)[..|a|] == a && (a + b)[|a|..] == b
  {
  }

  lemma Assoc(a: Bytes, b: Bytes, c: Bytes)
    ensures (a + b) + c == a + (b + c)
  {
  }

  /** Every command-failure message starts with `Error during command execution: "<cmd>"`. */
  lemma MessageStartsWithHeader(cmd: Bytes, retCode: Option<int>, stdout: Bytes, stderr: Bytes)
    ensures var m, h := CommandMessage(cmd, retCode, stdout, stderr), CommandHeader(cmd);
            |m| >= |h| && m[..|h|] == h && m[..|TemplateHead|] == TemplateHead
  {
    var h := CommandHeader(cmd);
    Split(h, CommandTrailer(retCode, stdout, stderr));
    Assoc(TemplateHead, cmd, TemplateTail);
    Split(TemplateHead, cmd + TemplateTail);
  }

  /** `RemoteCommandError(cmd, ret_code, stdout, stderr)`. `stdout` and `stderr`
      must be strings: `__init__` calls `.decode` on them unconditionally. */
  function NewRemoteCommandError(cmd: Bytes, retCode: Option<int>, stdout: Bytes, stderr: Bytes)
    : (e: RemoteCommandError)
    ensures e.cmd == cmd && e.retCode == retCode
    ensures e.stdout == Degrade(stdout) && e.stderr == Degrade(stderr)
    ensures AllAscii(e.stdout) && AllAscii(e.stderr)
    ensures e.message == CommandMessage(cmd, retCode, e.stdout, e.stderr)
    ensures e.text == NewRemoteError(RemoteErrorClass, None, e.message).text
    ensures AllAscii(e.text)
  {
    var out := Degrade(stdout);
    var err := Degrade(stderr);
    var message := CommandMessage(cmd, retCode, out, err);
    RemoteCommandError(cmd, retCode, out, err, message, NewRemoteError(RemoteErrorClass, None, message).text)
  }

  /** `RemoteCommandError.__init__` step by step: degrade the outputs, store the
      fields, substitute `cmd` into the template, then append each section with `+=`,
      and finally hand the message to RemoteError. */
  method InitRemoteCommandError(cmd: Bytes, retCode: Option<int>, stdout: Bytes, stderr: Bytes)
    returns (e: RemoteCommandError)
    ensures e == NewRemoteCommandError(cmd, retCode, stdout, stderr)
  {
    var out := Degrade(stdout);
    var err := Degrade(stderr);
    var message: Bytes := TemplateHead + cmd + TemplateTail;
    ghost var h, c := message, ReturnCodeSection(retCode);
    if Truthy(retCode) {
      message := message + (ReturnCodeLabel + IntStr(retCode.value));
    }
    assert message == h + c;
    ghost var s1, s2 := OutputSection(StderrLabel, err), OutputSection(StdoutLabel, out);
    if err != [] {
      message := message + (StderrLabel + err);
    }
    assert message == (h + c) + s1;
    if out != [] {
      message := message + (StdoutLabel + out);
    }
    assert message == ((h + c) + s1) + s2;
    Assoc(h + c, s1, s2);
    Assoc(h, c, s1 + s2);
    assert message == CommandMessage(cmd, retCode, out, err);
    var remote := NewRemoteError(RemoteErrorClass, None, message);
    e := RemoteCommandError(cmd, retCode, out, err, message, remote.text);
  }

  /** The constant parts of the message are ASCII. */
  lemma LabelsAreAscii()
    ensures AllAscii(TemplateHead) && AllAscii(TemplateTail)
    ensures AllAscii(StderrLabel) && AllAscii(StdoutLabel)
  {
  }

  /** The part after the header is ASCII whenever the outputs are. */
  lemma TrailerIsAscii(retCode: Option<int>, stdout: Bytes, stderr: Bytes)
    requires AllAscii(stdout) && AllAscii(stderr)
    ensures AllAscii(CommandTrailer(retCode, stdout, stderr))
  {
    var s1, s2 := OutputSection(StderrLabel, stderr), OutputSection(StdoutLabel, stdout);
    LabelsAreAscii();
    ReturnCodeReadsBack(retCode);
    if stderr != [] { ConcatAscii(StderrLabel, stderr); }
    if stdout != [] { ConcatAscii(StdoutLabel, stdout); }
    ConcatAscii(s1, s2);
    ConcatAscii(ReturnCodeSection(retCode), s1 + s2);
  }

  /** Degrading the header degrades the command inside it. */
  lemma DegradedHeader(cmd: Bytes)
    ensures Degrade(CommandHeader(cmd)) == CommandHeader(Degrade(cmd))
  {
    LabelsAreAscii();
    DegradeFixesAscii(TemplateHead);
    DegradeFixesAscii(TemplateTail);
    DegradeConcat(TemplateHead + cmd, TemplateTail);
    DegradeConcat(TemplateHead, cmd);
  }

  /** Degrading a message whose outputs are already ASCII only touches the command:
      the result is the message built from the degraded command. */
  lemma DegradedCommandMessage(cmd: Bytes, retCode: Option<int>, stdout: Bytes, stderr: Bytes)
    requires AllAscii(stdout) && AllAscii(stderr)
    ensures Degrade(CommandMessage(cmd, retCode, stdout, stderr)) ==
            CommandMessage(Degrade(cmd), retCode, stdout, stderr)
  {
    var t := CommandTrailer(retCode, stdout, stderr);
    TrailerIsAscii(retCode, stdout, stderr);
    DegradeFixesAscii(t);
    DegradedHeader(cmd);
    DegradeConcat(CommandHeader(cmd), t);
  }

  /** The exception's text is the message built from the degraded command: the last
      degradation can remove bytes of `cmd` only. */
  lemma CommandTextDegradesOnlyCmd(cmd: Bytes, retCode: Option<int>, stdout: Bytes, stderr: Bytes)
    ensures var e := NewRemoteCommandError(cmd, retCode, stdout, stderr);
            e.text == CommandMessage(Degrade(cmd), retCode, e.stdout, e.stderr)
  {
    DegradedCommandMessage(cmd, retCode, Degrade(stdout), Degrade(stderr));
  }

  /** With an ASCII command the exception's text is its message, unchanged. */
  lemma AsciiCommandTextIsMessage(cmd: Bytes, retCode: Option<int>, stdout: Bytes, stderr: Bytes)
    requires AllAscii(cmd)
    ensures var e := NewRemoteCommandError(cmd, retCode, stdout, stderr); e.text == e.message
  {
    CommandTextDegradesOnlyCmd(cmd, retCode, stdout, stderr);
    DegradeFixesAscii(cmd);
  }

  /** A failure with no truthy return code and no output is reported by the header alone. */
  lemma BareCommandMessage(cmd: Bytes, retCode: Option<int>, stdout: Bytes, stderr: Bytes)
    requires !Truthy(retCode) && stdout == [] && stderr == []
    ensures CommandMessage(cmd, retCode, stdout, stderr) == TemplateHead + cmd + TemplateTail
  {
    assert CommandTrailer(retCode, stdout, stderr) == [];
  }

  /** Right after the header, the message shows the return-code line exactly when the
      return code is truthy: whatever else may follow cannot be mistaken for it. */
  lemma ReturnCodeShownIffTruthy(cmd: Bytes, retCode: Option<int>, stdout: Bytes, stderr: Bytes)
    ensures var m, h := CommandMessage(cmd, retCode, stdout, stderr), |CommandHeader(cmd)|;
            Truthy(retCode) <==>
              (|m| >= h + |ReturnCodeLabel| && m[h..h + |ReturnCodeLabel|] == ReturnCodeLabel)
  {
    var t := CommandTrailer(retCode, stdout, stderr);
    Split(CommandHeader(cmd), t);
    TrailerShowsReturnCode(retCode, stdout, stderr);
  }

  lemma TrailerShowsReturnCode(retCode: Option<int>, stdout: Bytes, stderr: Bytes)
    ensures var t := CommandTrailer(retCode, stdout, stderr);
            Truthy(retCode) <==> (|t| >= |ReturnCodeLabel| && t[..|ReturnCodeLabel|] == ReturnCodeLabel)
  {
    var c, s1, s2 := ReturnCodeSection(retCode),
                     OutputSection(StderrLabel, stderr), OutputSection(StdoutLabel, stdout);
    var t := c + (s1 + s2);
    if Truthy(retCode) {
      Split(ReturnCodeLabel, IntStr(retCode.value));
      Split(c, s1 + s2);
      assert t[..|ReturnCodeLabel|] == c[..|ReturnCodeLabel|];
    } else if s1 != [] {
      assert t == s1 + s2;
      assert t[1] == StderrLabel[1];
    } else if s2 != [] {
      assert t == s2;
      assert t[1] == StdoutLabel[1];
    } else {
      assert t == [];
    }
  }

  /** After the return-code line, the message shows the STDERR section exactly when
      the degraded stderr is non-empty. */
  lemma StderrShownIffPresent(cmd: Bytes, retCode: Option<int>, stdout: Bytes, stderr: Bytes)
    ensures var m, k := CommandMessage(cmd, retCode, stdout, stderr),
                        |CommandHeader(cmd)| + |ReturnCodeSection(retCode)|;
            stderr != [] <==>
              (|m| >= k + |StderrLabel| && m[k..k + |StderrLabel|] == StderrLabel)
  {
    var h, c := CommandHeader(cmd), ReturnCodeSection(retCode);
    var rest := OutputSection(StderrLabel, stderr) + OutputSection(StdoutLabel, stdout);
    Assoc(h, c, rest);
    Split(h + c, rest);
    OutputsStartWithStderr(stdout, stderr);
    var m, k := (h + c) + rest, |h + c|;
    if |m| >= k + |StderrLabel| {
      assert m[k..k + |StderrLabel|] == rest[..|StderrLabel|];
    }
  }

  /** The output sections start with the STDERR heading exactly when there is stderr:
      the STDOUT heading differs from it. */
  lemma OutputsStartWithStderr(stdout: Bytes, stderr: Bytes)
    ensures var rest := OutputSection(StderrLabel, stderr) + OutputSection(StdoutLabel, stdout);
            stderr != [] <==> (|rest| >= |StderrLabel| && rest[..|StderrLabel|] == StderrLabel)
  {
    var s1, s2 := OutputSection(StderrLabel, stderr), OutputSection(StdoutLabel, stdout);
    var rest := s1 + s2;
    if stderr != [] {
      Split(StderrLabel, stderr);
      Split(s1, s2);
    } else if s2 != [] {
      assert rest == s2;
      assert rest[4] == StdoutLabel[4] == 'O' && StderrLabel[4] == 'E';
    } else {
      assert rest == [];
    }
  }

  /** STDERR comes before STDOUT, and STDOUT comes last: with both present, the message
      ends with the STDERR section followed by the STDOUT section. */
  lemma StderrBeforeStdout(cmd: Bytes, retCode: Option<int>, stdout: Bytes, stderr: Bytes)
    requires stdout != [] && stderr != []
    ensures var m, tail := CommandMessage(cmd, retCode, stdout, stderr),
                           StderrLabel + stderr + (StdoutLabel + stdout);
            |tail| <= |m| && m[|m| - |tail|..] == tail
  {
    var head := CommandHeader(cmd) + ReturnCodeSection(retCode);
    var tail := StderrLabel + stderr + (StdoutLabel + stdout);
    Assoc(CommandHeader(cmd), ReturnCodeSection(retCode), tail);
    Split(head, tail);
  }

  /** The STDOUT section is the last one and appears exactly when there is output:
      with output the message ends with it, without output the message is the header,
      the return code and the STDERR section only. */
  lemma StdoutLastIffPresent(cmd: Bytes, retCode: Option<int>, stdout: Bytes, stderr: Bytes)
    ensures var m, tail := CommandMessage(cmd, retCode, stdout, stderr), StdoutLabel + stdout;
            (stdout != [] ==> |tail| <= |m| && m[|m| - |tail|..] == tail) &&
            (stdout == [] ==>
               m == CommandHeader(cmd) + ReturnCodeSection(retCode) + OutputSection(StderrLabel, stderr))
  {
    var head := CommandHeader(cmd) + ReturnCodeSection(retCode);
    var s1 := OutputSection(StderrLabel, stderr);
    Assoc(CommandHeader(cmd), ReturnCodeSection(retCode), s1 + OutputSection(StdoutLabel, stdout));
    Assoc(head, s1, OutputSection(StdoutLabel, stdout));
    if stdout != [] {
      Split(head + s1, StdoutLabel + stdout);
    } else {
      assert s1 + [] == s1;
    }
  }
}
