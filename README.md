# Savanna guest agent, modelled in Dafny

The savanna guest agent runs inside a cluster VM. It serves four kinds of request
from the controller over RPC:

- run a shell command, optionally as root;
- write a batch of files, or read one file back, optionally as root;
- proxy an HTTP request and return a serialisable copy of the response;
- report failures as exceptions whose messages are built from templates.

This project models that logic and proves what it promises. The OS, the HTTP
library and the message bus are abstracted away.

| file | module | what it holds |
|---|---|---|
| `pytext.dfy` | `PyText` | Python 2 byte strings; `decode('ascii', 'ignore')` as `Degrade`; `str(int)` as `IntStr`, with a parser as its partner |
| `exceptions.dfy` | `Exceptions` | `SavannaException`, `RemoteError` / `RemoteConnectionError` and `RemoteCommandError` as datatypes, with their message builders; the `+=` construction of the command error's message as a method, proved equal to the declarative message |
| `command.dfy` | `Command` | `_execute_command`: the sudo wrapper, and the choice between raising and returning a 2- or 3-tuple |
| `http.dfy` | `HttpProxy` | the `auth` rewrite, the `_resp_attrs` projection and the `RuntimeError` re-wrapping |
| `outcome.dfy` | `Outcomes` | `AgentError` and `Outcome`: how a call ends, with a value or with one of the exceptions the command, file and HTTP paths let escape |
| `staging.dfy` | `FileIO` | `write_files_to`, `read_file_from` and `_safely_unlink` |

How the model is built:

- **Exceptions.** A Python exception leaving a call is the `Raised` case of `Outcome`.
- **Subprocess.** The subprocess is a parameter `run: Bytes -> ProcessResult`. It is
  applied to the command line actually handed to `/bin/bash`.
- **HTTP client.** `requests.request` is a parameter `send` that answers with a
  response or with a raised exception.
- **Filesystem.** `GuestHost` is a class. It holds a map from path to contents, the
  set of staging names `mkstemp` handed out that are not yet unlinked, and the set
  of paths only root may open.
- **File operations.** The methods of `GuestHost` run step by step, like the source:
  `mkstemp`, write, root `cp`, unlink. Each method is proved equal to a spec function
  on values (`WriteAll`, `ReadFile`). The lemmas about those functions state the
  round trips, the cleanup on a normal exit, the leak when the copy fails, and the
  absence of rollback in a batch.
- **OS inputs.** Each privileged operation receives what the OS supplies as a
  `Staging` value: the name `mkstemp` chooses and what the root `cp` reported.
- **Public entry point.** `execute_command` only forwards its four arguments to
  `_execute_command`. `ExecuteCommand` takes all four explicitly, so it also stands
  for the public entry point.

Two behaviours of the code that the model keeps as they are:

- `_safely_unlink` (`savanna/guestagent/agent.py:128-136`) resumes after its
  `yield` only when the body of the `with` block ends normally. A failing root
  `cp` therefore leaves the staging file behind (`FileIO.StagingLeaksWhenCopyFails`).
- An unprivileged `open()` raises `IOError` directly (`AgentError.IOError`); it is
  not wrapped in any of the savanna exceptions.

## Model

| member | source | states |
|---|---|---|
| PyText.Degrade | savanna/exceptions.py:50 | the result of `decode('ascii', 'ignore')` is pure ASCII and never longer than its input |
| PyText.DegradeConcat | savanna/exceptions.py:50 | degradation works byte by byte: it distributes over concatenation |
| PyText.DegradeFixesAscii | savanna/exceptions.py:50 | degradation leaves a string unchanged if and only if the string is all ASCII |
| PyText.DegradeIdempotent | savanna/exceptions.py:50 | degrading a second time changes nothing |
| PyText.DegradeKeepsAsciiBytes | savanna/exceptions.py:61-62 | every ASCII byte survives as often as it occurred; no byte of 128 or more survives |
| PyText.NatStr | savanna/exceptions.py:72 | `str(n)` of a non-negative number is a non-empty run of decimal digits |
| PyText.IntStr | savanna/exceptions.py:72 | `str(i)` is non-empty and ASCII, and it starts with `-` exactly when `i` is negative |
| PyText.NatStrRoundTrip | savanna/exceptions.py:72 | the digits of `n` read back as `n` |
| PyText.IntStrRoundTrip | savanna/exceptions.py:72 | `str(i)` is integer text that reads back as `i`, so the return code shown in a message is exact |
| Exceptions.SavannaException.Arg | savanna/exceptions.py:29-31 | the exception argument is `code`, then `": "`, then `str()` of the exception |
| Exceptions.ArgDeterminesMessage | savanna/exceptions.py:26-31 | two exceptions with the same code and the same argument have the same `str()` |
| Exceptions.RemoteErrorMessage | savanna/exceptions.py:44-48 | with no wrapped exception the message is `msg`; with one it is, position by position, the module, `.`, the class name, `: ` and `str(exc)` |
| Exceptions.WrappedMessageIgnoresMsg | savanna/exceptions.py:45-48 | with a wrapped exception the `msg` argument makes no difference to the message or to the error, of either class |
| Exceptions.NewRemoteError | savanna/exceptions.py:44-52 | the error keeps its class (`RemoteError` or `RemoteConnectionError`); its text is pure ASCII and no longer than the formatted message |
| Exceptions.RemoteErrorKeepsAsciiMessage | savanna/exceptions.py:44-52 | an ASCII `msg` with no wrapped exception becomes the error's text unchanged |
| Exceptions.WrappedExceptionText | savanna/exceptions.py:45-50 | a wrapped exception's text is the degraded module, `.`, the degraded name, `: `, and the degraded `str(exc)` |
| Exceptions.RemoteErrorTextStable | savanna/exceptions.py:50 | degrading a RemoteError's text again changes nothing |
| Exceptions.ReturnCodeReadsBack | savanna/exceptions.py:71-72 | the return-code section is empty exactly when the code is not truthy; otherwise it is `\nReturn code: ` followed by text that reads back as the code; it is ASCII |
| Exceptions.CommandMessage | savanna/exceptions.py:56-78 | the message keeps all of the command and all of both outputs: it is at least as long as the filled template plus stderr plus stdout |
| Exceptions.MessageStartsWithHeader | savanna/exceptions.py:56-69 | the command error's message starts with `Error during command execution: "<cmd>"` |
| Exceptions.NewRemoteCommandError | savanna/exceptions.py:58-80 | `cmd` and `ret_code` are stored unchanged; stdout and stderr are stored degraded; the message is built from those stored values; the text is the RemoteError text of the message, and it is ASCII |
| Exceptions.InitRemoteCommandError | savanna/exceptions.py:58-80 | building the message step by step with `+=` gives exactly the error of `NewRemoteCommandError` |
| Exceptions.TrailerIsAscii | savanna/exceptions.py:71-78 | with ASCII outputs, everything after the header is ASCII |
| Exceptions.DegradedHeader | savanna/exceptions.py:56-69 | degrading the header is the same as building the header from the degraded command |
| Exceptions.DegradedCommandMessage | savanna/exceptions.py:69-80 | with ASCII outputs, degrading the whole message is the same as building the message from the degraded command |
| Exceptions.CommandTextDegradesOnlyCmd | savanna/exceptions.py:61-80 | the final degradation of the command error's text can remove bytes of `cmd` only |
| Exceptions.AsciiCommandTextIsMessage | savanna/exceptions.py:69-80 | for an ASCII command, the error's text is its message |
| Exceptions.BareCommandMessage | savanna/exceptions.py:56-78 | with no truthy code and no output, the message is the template filled with `cmd`, nothing more |
| Exceptions.TrailerShowsReturnCode | savanna/exceptions.py:71-78 | the part after the header starts with `\nReturn code: ` exactly when the code is truthy |
| Exceptions.ReturnCodeShownIffTruthy | savanna/exceptions.py:71-72 | `\nReturn code: ` follows the header exactly when `ret_code` is truthy (not None and not 0) |
| Exceptions.StderrShownIffPresent | savanna/exceptions.py:74-75 | `\nSTDERR:\n` follows the return-code section exactly when the (degraded) stderr is non-empty |
| Exceptions.OutputsStartWithStderr | savanna/exceptions.py:74-78 | the sections after the return code start with `\nSTDERR:\n` exactly when there is stderr |
| Exceptions.StderrBeforeStdout | savanna/exceptions.py:74-78 | with both outputs present, the message ends with the STDERR section followed by the STDOUT section |
| Exceptions.StdoutLastIffPresent | savanna/exceptions.py:77-78 | with stdout present, the message ends with `\nSTDOUT:\n` and stdout; without it, the message is the header, the return-code section and the STDERR section only |
| Command.EffectiveCommand | savanna/guestagent/agent.py:109-110 | with `run_as_root` the command is `sudo bash -c "` + cmd + `"`, with no quoting; otherwise it is unchanged |
| Command.ExecuteCommand | savanna/guestagent/agent.py:106-126 | it raises exactly when the code is non-zero and `raise_when_error` is set, and the error carries the line that ran, the code and the outputs; otherwise it returns the code and stdout, plus stderr exactly when `get_stderr` is set |
| Command.ZeroReturnCodeNeverRaises | savanna/guestagent/agent.py:119-126 | a zero code returns `(0, stdout)` or `(0, stdout, stderr)`, whatever `raise_when_error` says |
| Command.FailureReturnedWhenNotRaising | savanna/guestagent/agent.py:119-126 | with `raise_when_error` unset, a failing command returns normally with its non-zero code first |
| Command.RaisedErrorDescribesCommand | savanna/guestagent/agent.py:119-121 | the raised command error names the sudo-wrapped line that ran, its code and its degraded outputs, and its message starts with the header for that line |
| Command.RaisedErrorShowsReturnCode | savanna/guestagent/agent.py:119-121 | a raised command error's message always shows `\nReturn code: ` right after the header |
| Command.ExecuteCommandAsWritten | savanna/guestagent/agent.py:119-121 | as written, every raise is an AttributeError for the missing `RemoteCommandException` |
| Command.AsWrittenDiffersOnlyWhenRaising | savanna/guestagent/agent.py:119-126 | the written and the intended code raise on the same inputs and agree whenever nothing is raised; on the raising path only the intended code produces a command error |
| Command.ExitSevenShowsMisspeltClass | savanna/guestagent/agent.py:119-121 | for `exit 7` with `raise_when_error`, the written code raises AttributeError, while the intended code raises a command error with code 7 |
| Command.EchoHiReturnsOutput | savanna/guestagent/agent.py:106-126 | `echo hi` returns `(0, "hi\n")` |
| HttpProxy.NormaliseAuth | savanna/guestagent/agent.py:170-173 | the keys stay the same; a two-element list under `auth` becomes a tuple of the same elements; every other value is unchanged |
| HttpProxy.NormaliseAuthChangesOnlyCredentialLists | savanna/guestagent/agent.py:170-173 | the options change if and only if `auth` holds a two-element list |
| HttpProxy.NormaliseAuthIdempotent | savanna/guestagent/agent.py:170-173 | normalising twice is the same as normalising once |
| HttpProxy.SerializeResponse | savanna/guestagent/agent.py:85-88 | the dictionary has exactly the `_resp_attrs` keys; each holds the response's attribute, or None where the response has none |
| HttpProxy.SerializedKeysExclude | savanna/guestagent/agent.py:58-69 | `request`, `history` and `elapsed` are never serialised |
| HttpProxy.BodyPreserved | savanna/guestagent/agent.py:85-88 | the `_content` bytes come back exactly as the response held them |
| HttpProxy.SerializeSeesOnlyAllowList | savanna/guestagent/agent.py:85-88 | two responses that agree on the allow-listed attributes give the same dictionary |
| HttpProxy.SerializeIdempotent | savanna/guestagent/agent.py:85-88 | projecting an already projected response gives the same dictionary |
| HttpProxy.WrappedText | savanna/guestagent/agent.py:80 | the re-wrapped text is the type name, `: `, and the original text |
| HttpProxy.Request | savanna/guestagent/agent.py:168-175 | the client sees the normalised options; a response comes back as its projection; an `Exception` becomes `RuntimeError("Type: text")`; anything else propagates as raised |
| HttpProxy.HighByteBodyExample | savanna/guestagent/agent.py:85-95 | a body of bytes 0xFF 0x00 reaches the dictionary unchanged, and a missing `status_code` is None |
| FileIO.CopyOutcomeRaisesIffFailed | savanna/guestagent/agent.py:146-147 | the root `cp` raises exactly when it exits non-zero, with the command error for the sudo-wrapped `cp src dst` |
| FileIO.WriteOne | savanna/guestagent/agent.py:139-151 | one iteration of the loop keeps every live staging name a file, and without root it creates no staging name; its exact effect is stated by `WriteOneEffect` |
| FileIO.WriteAll | savanna/guestagent/agent.py:138-151 | the whole batch keeps every live staging name a file, and without root it creates no staging name; its effect is stated by `WriteAllSuccess`, `WriteAllSequential` and `FailureKeepsEarlierWrites` |
| FileIO.ReadFile | savanna/guestagent/agent.py:153-166 | a read keeps every live staging name a file, and without root it leaves the disk untouched; its exact effect is stated by `ReadFileEffect` |
| FileIO.CopyAsWrittenRaisesAttributeError | savanna/guestagent/agent.py:146-147 | as written, a failing root `cp` raises AttributeError (line 120's missing class) on exactly the inputs where the intended code raises a command error, and a successful one returns the same value |
| FileIO.WriteOneEffect | savanna/guestagent/agent.py:139-151 | one write fails exactly when the root copy fails, or, without root, when the path is root-only; on success only the target changes; on failure the target is untouched, and a privileged write leaves its staging file holding the data |
| FileIO.PrivilegedWriteSucceeds | savanna/guestagent/agent.py:141-147 | a privileged write whose copy succeeds ends as a plain write of the target |
| FileIO.PrivilegedWriteFails | savanna/guestagent/agent.py:141-147 | a privileged write whose copy fails raises the copy's error and keeps the staging file, holding the data |
| FileIO.StagedCopyRemoved | savanna/guestagent/agent.py:141-147 | staging the data under a fresh name, copying it and unlinking the name is the same as writing the target |
| FileIO.ReadFileEffect | savanna/guestagent/agent.py:153-166 | a read returns the file's contents and leaves the disk exactly as it was; without root it fails with IOError on missing or root-only paths; with root it fails with the copy's error and leaves the empty staging file behind |
| FileIO.StagingRemovedOnNormalExit | savanna/guestagent/agent.py:128-136 | after a privileged write or read that ends normally, its staging file is gone and the live staging names are those from before |
| FileIO.StagingLeaksWhenCopyFails | savanna/guestagent/agent.py:130-147 | when the root copy fails, the command error propagates and the staging file stays on disk, still live |
| FileIO.UnprivilegedRoundTrip | savanna/guestagent/agent.py:149-166 | writing data to a path the agent may open, then reading that path, gives the data back |
| FileIO.PrivilegedRoundTrip | savanna/guestagent/agent.py:140-162 | writing as root, then reading as root, gives the data back, and neither staging file remains |
| FileIO.AppliedContents | savanna/guestagent/agent.py:139 | after a batch with distinct paths, each path holds its entry's data and every other path is as before |
| FileIO.AppliedKeys | savanna/guestagent/agent.py:139-151 | after a batch, the paths present are exactly those from before plus the batch's targets: each of those is present, and nothing else |
| FileIO.WriteAllSuccess | savanna/guestagent/agent.py:139-151 | a batch that succeeds has written every entry in order and left no staging file |
| FileIO.WriteAllSequential | savanna/guestagent/agent.py:139 | a batch is its first `k` entries followed by the rest, and it stops at the first exception |
| FileIO.FailureKeepsEarlierWrites | savanna/guestagent/agent.py:139-151 | no rollback: when entry `k` fails, the earlier entries stay written, the later ones are never written, and the only other trace is a failed copy's staging file |
| FileIO.GuestHost.MakeStagingFile | savanna/guestagent/agent.py:141 | `mkstemp` adds an empty file under a new live staging name |
| FileIO.GuestHost.CopyAsRoot | savanna/guestagent/agent.py:146-147 | it runs `cp` through the command executor as root, and the disk changes only when the copy succeeds |
| FileIO.GuestHost.SafelyUnlink | savanna/guestagent/agent.py:128-136 | afterwards the name is neither a file nor a live staging name, and it never fails, even when the file is already gone |
| FileIO.GuestHost.WriteFilesTo | savanna/guestagent/agent.py:138-151 | the loop's final disk and outcome are those of `WriteAll` on the initial disk, and the disk stays consistent |
| FileIO.GuestHost.ReadFileFrom | savanna/guestagent/agent.py:153-166 | the final disk and outcome are those of `ReadFile` on the initial disk, and the disk stays consistent |

## Left out

- `main()`, option registration, logging, the oslo.messaging RPC server and `eventlet.monkey_patch()`: these are process start-up, transport and concurrency.
- Spawning the process and the shell's semantics: the process is the parameter `run`. Quoting and escaping of the command are not modelled.
- `requests.request` and the lazy reading of the body (`resp.content`): the library is the parameter `send`, and its response is taken as already read.
- `pickle.dumps(dct, protocol=0)`: only the dictionary handed to it is modelled, not its byte format.
- Uniqueness of `mkstemp` names: the lemmas take a fresh staging name as a hypothesis (`FreshFor`, `FreshBatch`). The operations themselves do not require it.
- The order of `files.iteritems()`: a batch is a sequence in whatever order the dictionary yields.
- File descriptors (`os.fdopen`, `os.close`) and write failures other than permission: the disk stores contents by path. Only a root-only path makes an unprivileged `open()` fail; a missing directory, a full disk or a directory path are not modelled.
- File permissions: they are reduced to the fixed set `rootOnly`. A root `cp` that exits with 0 is taken to have found its source.
- FileIO.CopyOutcome: the root `cp` of `write_files_to` and `read_file_from` goes through the intended executor `Command.ExecuteCommand`, so a failed copy raises the command error. As written (see Findings), it raises AttributeError instead; `FileIO.CopyAsWrittenRaisesAttributeError` states this, and the staging file leaks either way.
- FileIO.GuestHost.SafelyUnlink: `os.unlink` is taken to remove any name it is given. The source swallows every OSError (`savanna/guestagent/agent.py:132-136`), so an unlink refused for another reason than a missing file (permission, busy device, read-only filesystem) would leave the staging file in place while the call still returns normally. `FileIO.Unlink`, `FileIO.StagingRemovedOnNormalExit`, `FileIO.PrivilegedRoundTrip` and `FileIO.StagedCopyRemoved` depend on this.
- HttpProxy.Request: the source rewrites the caller's `kwargs` dictionary in place. The model returns a new map, so the aliasing is not modelled.
- HttpProxy.NormaliseAuth: `isinstance(..., list)` is modelled as the list value only; subclasses of `list` are not modelled.
- HttpProxy.SerializeResponse: an attribute counts as present when it is in the response's namespace. Properties computed on access are not modelled.
- NewRemoteCommandError: does not model Python 2's implicit str/unicode coercion. A command holding a byte of 128 or more, combined with an output that is non-empty after degradation, would raise UnicodeDecodeError in the `+=`; the model assumes the concatenation succeeds.
- NewRemoteCommandError: takes stdout and stderr as byte strings. The `None` defaults would make `.decode` raise AttributeError, but the command executor always passes strings.
- NewRemoteError: a wrapped exception is given by its module, class name and `str()` text. A falsy exception object, or a `str()` that raises, is not modelled.
- Command.ExecuteCommand: the `ctx` argument of the public `execute_command` is unused by the source and is not a parameter.

## Findings

| source | as written | input that shows it | evidently intended | confidence | as-written member | corrected member |
|---|---|---|---|---|---|---|
| savanna/guestagent/agent.py:120 | raises `ex.RemoteCommandException`, a name the exceptions module does not define (it defines `RemoteCommandError` at savanna/exceptions.py:55), so the lookup raises AttributeError | command `exit 7` with `raise_when_error` true | raise `RemoteCommandError(cmd, ret_code, stdout, stderr)` | not executed | Command.ExecuteCommandAsWritten, Command.ExitSevenShowsMisspeltClass | Command.ExecuteCommand, Command.RaisedErrorDescribesCommand |

The file operations are built on the intended executor. As written, a failed privileged write or read propagates the AttributeError instead of the command error (`FileIO.CopyAsWrittenRaisesAttributeError`).
