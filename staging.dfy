/** Privileged file I/O of the agent endpoint (`write_files_to`, `read_file_from`
    and the `_safely_unlink` context manager). A write or read that needs root goes
    through a staging file from `tempfile.mkstemp` and a `cp` run as root; the
    staging file is unlinked only when the body of the `with` block ends normally. */
module FileIO {
  import opened PyText
  import opened Exceptions
  import opened Outcomes
  import opened Command

  type Path = Bytes

  /** The filesystem as the agent sees it: file contents by path, and the staging
      names `mkstemp` handed out whose files have not been unlinked yet. */
  datatype Disk = Disk(files: map<Path, Bytes>, temps: set<Path>)

  /** Every live staging name is a file. */
  predicate Consistent(d: Disk) {
    d.temps <= d.files.Keys
  }

  /** What the OS supplies to one privileged operation: the name `mkstemp` picks and
      what the root `cp` process reports when it has run. */
  datatype Staging = Staging(tmp: Path, copy: ProcessResult)

  /** One `filename: data` item of the `files` dictionary, in iteration order. */
  datatype FileEntry = FileEntry(path: Path, data: Bytes)

  /** How one step ends: the filesystem afterwards, and the value or exception. */
  datatype Step<T> = Step(disk: Disk, out: Outcome<T>)

  /** `'cp %s %s' % (src, dst)`. */
  function CopyCommand(src: Path, dst: Path): Bytes {
    "cp " + src + " " + dst
  }

  // ---------------------------------------------------------------------------
  // The primitive steps, on values

  /** `tempfile.mkstemp()`: an empty file under a new name. */
  function MkStemp(d: Disk, tmp: Path): Disk {
    Disk(d.files[tmp := []], d.temps + {tmp})
  }

  /** Writing `data` through the descriptor `mkstemp` returned. */
  function FillStaging(d: Disk, tmp: Path, data: Bytes): Disk {
    Disk(d.files[tmp := data], d.temps)
  }

  /** What the root `cp src dst` does to the disk: a copy when it exits with 0,
      nothing otherwise. A `cp` that exits with 0 found its source. */
  function RootCopy(d: Disk, src: Path, dst: Path, p: ProcessResult): Disk
    requires p.retCode == 0 ==> src in d.files
  {
    if p.retCode == 0 then Disk(d.files[dst := d.files[src]], d.temps) else d
  }

  /** `self._execute_command('cp ...', run_as_root=True)`: raises when `cp` fails. */
  function CopyOutcome(src: Path, dst: Path, p: ProcessResult): Outcome<CommandReturn> {
    ExecuteCommand(CopyCommand(src, dst), true, false, true, (line: Bytes) => p)
  }

  /** The code after `yield` in `_safely_unlink`: `os.unlink`, with every OSError
      swallowed, so it never fails. The unlink is taken to remove the name; an unlink
      the OS refuses (and the source silently ignores) is not modelled. */
  function Unlink(d: Disk, tmp: Path): Disk {
    Disk(d.files - {tmp}, d.temps - {tmp})
  }

  // ---------------------------------------------------------------------------
  // The operations, on values

  /** One iteration of the loop in `write_files_to`. Without root, `open(path, 'w')`
      fails with IOError on a path in `rootOnly`. With root, the staging file is
      unlinked only after the copy succeeded: a failing copy raises out of the
      `with` block before `_safely_unlink` resumes. */
  function WriteOne(d: Disk, rootOnly: set<Path>, e: FileEntry, runAsRoot: bool, s: Staging): (r: Step<()>)
    ensures Consistent(d) ==> Consistent(r.disk)
    ensures !runAsRoot ==> r.disk.temps == d.temps
  {
    if runAsRoot then
      var staged := FillStaging(MkStemp(d, s.tmp), s.tmp, e.data);
      var copied := RootCopy(staged, s.tmp, e.path, s.copy);
      match CopyOutcome(s.tmp, e.path, s.copy)
      case Raised(err) => Step(copied, Raised(err))
      case Returned(_) => Step(Unlink(copied, s.tmp), Returned(()))
    else if e.path in rootOnly then
      Step(d, Raised(IOError(e.path)))
    else
      Step(Disk(d.files[e.path := e.data], d.temps), Returned(()))
  }

  /** `write_files_to(ctxt, files, run_as_root)`: the entries one after the other,
      stopping at the first exception, undoing nothing. */
  function WriteAll(d: Disk, rootOnly: set<Path>, batch: seq<FileEntry>, runAsRoot: bool,
                    staging: seq<Staging>): (r: Step<()>)
    requires |staging| == |batch|
    ensures Consistent(d) ==> Consistent(r.disk)
    ensures !runAsRoot ==> r.disk.temps == d.temps
    decreases |batch|
  {
    if batch == [] then Step(d, Returned(()))
    else
      var first := WriteOne(d, rootOnly, batch[0], runAsRoot, staging[0]);
      if first.out.Raised? then first
      else WriteAll(first.disk, rootOnly, batch[1..], runAsRoot, staging[1..])
  }

  /** `read_file_from(ctxt, remote_file, run_as_root)`. Without root, `open` fails
      with IOError on a missing path or one in `rootOnly`. With root, `remote_file`
      is copied onto the staging file, which is read and then unlinked. */
  function ReadFile(d: Disk, rootOnly: set<Path>, path: Path, runAsRoot: bool, s: Staging): (r: Step<Bytes>)
    requires runAsRoot && s.copy.retCode == 0 ==> path in d.files
    ensures Consistent(d) ==> Consistent(r.disk)
    ensures !runAsRoot ==> r.disk == d
  {
    if runAsRoot then
      var copied := RootCopy(MkStemp(d, s.tmp), path, s.tmp, s.copy);
      match CopyOutcome(path, s.tmp, s.copy)
      case Raised(err) => Step(copied, Raised(err))
      case Returned(_) => Step(Unlink(copied, s.tmp), Returned(copied.files[s.tmp]))
    else if path in d.files && path !in rootOnly then
      Step(d, Returned(d.files[path]))
    else
      Step(d, Raised(IOError(path)))
  }

  /** The error the root `cp` raises when it fails. */
  function CopyError(src: Path, dst: Path, p: ProcessResult): AgentError {
    CommandFailed(NewRemoteCommandError(EffectiveCommand(CopyCommand(src, dst), true),
                                        Some(p.retCode), p.stdout, p.stderr))
  }

  /** The root `cp` raises exactly when it exits non-zero, with the command error
      naming the sudo-wrapped copy command. */
  lemma CopyOutcomeRaisesIffFailed(src: Path, dst: Path, p: ProcessResult)
    ensures CopyOutcome(src, dst, p).Raised? <==> p.retCode != 0
    ensures p.retCode != 0 ==> CopyOutcome(src, dst, p).error == CopyError(src, dst, p)
  {
  }

  /** As written, the copy goes through the misspelt exception class: a failing root
      `cp` raises AttributeError rather than a command error, on the same inputs. */
  lemma CopyAsWrittenRaisesAttributeError(src: Path, dst: Path, p: ProcessResult)
    ensures var w := ExecuteCommandAsWritten(CopyCommand(src, dst), true, false, true, (line: Bytes) => p);
            (w.Raised? <==> p.retCode != 0) &&
            (w.Raised? ==> w.error == AttributeError(MissingClassText)) &&
            (w.Returned? ==> w == CopyOutcome(src, dst, p))
  {
    AsWrittenDiffersOnlyWhenRaising(CopyCommand(src, dst), true, false, true, (line: Bytes) => p);
  }

  // ---------------------------------------------------------------------------
  // Properties of one write and one read

  /** A staging name `mkstemp` may hand out: not an existing file, not the target. */
  predicate FreshFor(d: Disk, tmp: Path, target: Path) {
    tmp !in d.files && tmp != target
  }

  /** What one write does: on success the target holds the data and nothing else
      changed (the staging file is gone); on failure the target is untouched, while a
      privileged write leaves its staging file behind holding the data. It fails
      exactly when the root copy fails, or, without root, on a root-only path. */
  lemma WriteOneEffect(d: Disk, rootOnly: set<Path>, e: FileEntry, runAsRoot: bool, s: Staging)
    requires Consistent(d)
    requires runAsRoot ==> FreshFor(d, s.tmp, e.path)
    ensures var w := WriteOne(d, rootOnly, e, runAsRoot, s);
            Consistent(w.disk) &&
            (w.out.Raised? <==> if runAsRoot then s.copy.retCode != 0 else e.path in rootOnly) &&
            (w.out.Returned? ==> w.disk == Disk(d.files[e.path := e.data], d.temps)) &&
            (w.out.Raised? && runAsRoot ==>
               w.out.error == CopyError(s.tmp, e.path, s.copy) &&
               w.disk == Disk(d.files[s.tmp := e.data], d.temps + {s.tmp})) &&
            (w.out.Raised? && !runAsRoot ==> w.disk == d && w.out.error == IOError(e.path))
  {
    if runAsRoot {
      if s.copy.retCode == 0 {
        PrivilegedWriteSucceeds(d, rootOnly, e, s);
      } else {
        PrivilegedWriteFails(d, rootOnly, e, s);
      }
    }
  }

  /** A privileged write whose copy succeeds is a plain write of the target. */
  lemma PrivilegedWriteSucceeds(d: Disk, rootOnly: set<Path>, e: FileEntry, s: Staging)
    requires Consistent(d) && FreshFor(d, s.tmp, e.path) && s.copy.retCode == 0
    ensures WriteOne(d, rootOnly, e, true, s) == Step(Disk(d.files[e.path := e.data], d.temps), Returned(()))
  {
    CopyOutcomeRaisesIffFailed(s.tmp, e.path, s.copy);
    StagedCopyRemoved(d, s.tmp, e.path, e.data);
  }

  /** A privileged write whose copy fails raises the copy's error and keeps the
      staging file, holding the data. */
  lemma PrivilegedWriteFails(d: Disk, rootOnly: set<Path>, e: FileEntry, s: Staging)
    requires s.copy.retCode != 0
    ensures WriteOne(d, rootOnly, e, true, s) ==
            Step(Disk(d.files[s.tmp := e.data], d.temps + {s.tmp}), Raised(CopyError(s.tmp, e.path, s.copy)))
  {
    CopyOutcomeRaisesIffFailed(s.tmp, e.path, s.copy);
  }

  /** Staging `data` under a fresh name, copying it to `path` and unlinking the name
      is the same as writing `data` to `path`. */
  lemma StagedCopyRemoved(d: Disk, tmp: Path, path: Path, data: Bytes)
    requires Consistent(d) && FreshFor(d, tmp, path)
    ensures Unlink(Disk(d.files[tmp := data][path := data], d.temps + {tmp}), tmp) ==
            Disk(d.files[path := data], d.temps)
  {
    assert d.files[tmp := data][path := data] - {tmp} == d.files[path := data];
    assert tmp !in d.temps;
  }

  /** What one read does: the file's contents come back and the disk is left exactly as
      it was (a privileged read removes its staging file); failures raise IOError
      without root, or the copy's command error with root, which then leaves the
      empty staging file behind. */
  lemma ReadFileEffect(d: Disk, rootOnly: set<Path>, path: Path, runAsRoot: bool, s: Staging)
    requires Consistent(d)
    requires runAsRoot ==> FreshFor(d, s.tmp, path)
    requires runAsRoot && s.copy.retCode == 0 ==> path in d.files
    ensures var r := ReadFile(d, rootOnly, path, runAsRoot, s);
            Consistent(r.disk) &&
            (r.out.Returned? <==>
               if runAsRoot then s.copy.retCode == 0 else path in d.files && path !in rootOnly) &&
            (r.out.Returned? ==> r.disk == d && r.out.value == d.files[path]) &&
            (r.out.Raised? && runAsRoot ==>
               r.out.error == CopyError(path, s.tmp, s.copy) && r.disk == MkStemp(d, s.tmp)) &&
            (r.out.Raised? && !runAsRoot ==> r.disk == d && r.out.error == IOError(path))
  {
    CopyOutcomeRaisesIffFailed(path, s.tmp, s.copy);
    if runAsRoot && s.copy.retCode == 0 {
      var r := ReadFile(d, rootOnly, path, runAsRoot, s);
      assert r.disk.files == d.files[s.tmp := []][s.tmp := d.files[path]] - {s.tmp};
      assert r.disk.files == d.files;
      assert r.disk.temps == d.temps;
    }
  }

  /** After a privileged write or read that ends normally, its staging file is gone and
      the live staging names are those from before. */
  lemma StagingRemovedOnNormalExit(d: Disk, rootOnly: set<Path>, e: FileEntry, s: Staging)
    requires Consistent(d) && FreshFor(d, s.tmp, e.path)
    ensures var w := WriteOne(d, rootOnly, e, true, s);
            w.out.Returned? ==> s.tmp !in w.disk.files && w.disk.temps == d.temps
    ensures e.path in d.files ==>
              var r := ReadFile(d, rootOnly, e.path, true, s);
              r.out.Returned? ==> s.tmp !in r.disk.files && r.disk.temps == d.temps
  {
    WriteOneEffect(d, rootOnly, e, true, s);
    if e.path in d.files {
      ReadFileEffect(d, rootOnly, e.path, true, s);
    }
  }

  /** The cleanup is not exception-safe: when the root copy fails, the command error
      propagates and the staging file stays on disk, still a live staging name. */
  lemma StagingLeaksWhenCopyFails(d: Disk, rootOnly: set<Path>, e: FileEntry, s: Staging)
    requires s.copy.retCode != 0
    ensures var w := WriteOne(d, rootOnly, e, true, s);
            w.out.Raised? && w.out.error.CommandFailed? &&
            s.tmp in w.disk.files && w.disk.files[s.tmp] == e.data && s.tmp in w.disk.temps
    ensures var r := ReadFile(d, rootOnly, e.path, true, s);
            r.out.Raised? && r.out.error.CommandFailed? &&
            s.tmp in r.disk.files && s.tmp in r.disk.temps
  {
    CopyOutcomeRaisesIffFailed(s.tmp, e.path, s.copy);
    CopyOutcomeRaisesIffFailed(e.path, s.tmp, s.copy);
  }

  /** Unprivileged round trip: writing `data` to a path the agent may open, then
      reading it back, gives `data`. */
  lemma UnprivilegedRoundTrip(d: Disk, rootOnly: set<Path>, path: Path, data: Bytes, s1: Staging, s2: Staging)
    requires path !in rootOnly
    ensures var w := WriteAll(d, rootOnly, [FileEntry(path, data)], false, [s1]);
            w.out.Returned? && ReadFile(w.disk, rootOnly, path, false, s2).out == Returned(data)
  {
    var e := FileEntry(path, data);
    assert [e][0] == e && [e][1..] == [] && [s1][0] == s1 && [s1][1..] == [];
  }

  /** Privileged round trip: writing `data` as root, then reading it as root, gives
      `data`, and neither staging file is left afterwards. */
  lemma PrivilegedRoundTrip(d: Disk, rootOnly: set<Path>, path: Path, data: Bytes, s1: Staging, s2: Staging)
    requires Consistent(d)
    requires FreshFor(d, s1.tmp, path) && FreshFor(d, s2.tmp, path)
    requires s1.copy.retCode == 0 && s2.copy.retCode == 0
    ensures var w := WriteAll(d, rootOnly, [FileEntry(path, data)], true, [s1]);
            w.out.Returned? && path in w.disk.files &&
            var r := ReadFile(w.disk, rootOnly, path, true, s2);
            r.out == Returned(data) &&
            s1.tmp !in r.disk.files && s2.tmp !in r.disk.files && r.disk.temps == d.temps
  {
    var e := FileEntry(path, data);
    assert [e][0] == e && [e][1..] == [] && [s1][0] == s1 && [s1][1..] == [];
    var w := WriteAll(d, rootOnly, [e], true, [s1]);
    var first := WriteOne(d, rootOnly, e, true, s1);
    WriteOneEffect(d, rootOnly, e, true, s1);
    assert first.out == Returned(());
    assert WriteAll(first.disk, rootOnly, [], true, []) == Step(first.disk, Returned(()));
    assert w == first;
    ReadFileEffect(w.disk, rootOnly, path, true, s2);
  }

  // ---------------------------------------------------------------------------
  // Properties of a batch

  /** The files after every entry of the batch was written, in order. */
  function Applied(files: map<Path, Bytes>, batch: seq<FileEntry>): map<Path, Bytes>
    decreases |batch|
  {
    if batch == [] then files else Applied(files[batch[0].path := batch[0].data], batch[1..])
  }

  /** The entries of a dictionary have distinct paths. */
  predicate DistinctPaths(batch: seq<FileEntry>) {
    forall i, j :: 0 <= i < j < |batch| ==> batch[i].path != batch[j].path
  }

  /** Every staging name of a privileged batch is fresh: not a file, and none of the
      batch's targets. */
  predicate FreshBatch(d: Disk, batch: seq<FileEntry>, runAsRoot: bool, staging: seq<Staging>) {
    |staging| == |batch| &&
    (runAsRoot ==> forall i :: 0 <= i < |staging| ==>
       staging[i].tmp !in d.files && forall j :: 0 <= j < |batch| ==> staging[i].tmp != batch[j].path)
  }

  /** After the batch, each entry's path holds that entry's data, and every other path
      holds what it held before. */
  lemma {:induction false} AppliedContents(files: map<Path, Bytes>, batch: seq<FileEntry>)
    requires DistinctPaths(batch)
    ensures forall i :: 0 <= i < |batch| ==>
              batch[i].path in Applied(files, batch) && Applied(files, batch)[batch[i].path] == batch[i].data
    ensures forall p :: (forall i :: 0 <= i < |batch| ==> batch[i].path != p) ==>
              (p in Applied(files, batch) <==> p in files) &&
              (p in files ==> Applied(files, batch)[p] == files[p])
    decreases |batch|
  {
    if batch != [] {
      var rest := batch[1..];
      assert DistinctPaths(rest) by {
        forall i, j | 0 <= i < j < |rest| ensures rest[i].path != rest[j].path {
          assert rest[i] == batch[i + 1] && rest[j] == batch[j + 1];
        }
      }
      var f1 := files[batch[0].path := batch[0].data];
      AppliedContents(f1, rest);
      forall i | 0 <= i < |batch|
        ensures batch[i].path in Applied(files, batch) && Applied(files, batch)[batch[i].path] == batch[i].data
      {
        if i > 0 {
          assert batch[i] == rest[i - 1];
        } else {
          forall k | 0 <= k < |rest| ensures rest[k].path != batch[0].path {
            assert rest[k] == batch[k + 1];
          }
        }
      }
      forall p | (forall i :: 0 <= i < |batch| ==> batch[i].path != p)
        ensures (p in Applied(files, batch) <==> p in files) &&
                (p in files ==> Applied(files, batch)[p] == files[p])
      {
        assert batch[0].path != p;
        forall k | 0 <= k < |rest| ensures rest[k].path != p {
          assert rest[k] == batch[k + 1];
        }
      }
    }
  }

  /** A batch whose every entry succeeds writes them all and leaves no staging file. */
  lemma {:induction false} WriteAllSuccess(d: Disk, rootOnly: set<Path>, batch: seq<FileEntry>, runAsRoot: bool,
                                           staging: seq<Staging>)
    requires Consistent(d) && FreshBatch(d, batch, runAsRoot, staging)
    ensures var w := WriteAll(d, rootOnly, batch, runAsRoot, staging);
            Consistent(w.disk) &&
            (w.out.Returned? ==> w.disk == Disk(Applied(d.files, batch), d.temps))
    decreases |batch|
  {
    if batch != [] {
      var first := WriteOne(d, rootOnly, batch[0], runAsRoot, staging[0]);
      WriteOneEffect(d, rootOnly, batch[0], runAsRoot, staging[0]);
      if first.out.Returned? {
        var rest, srest := batch[1..], staging[1..];
        assert FreshBatch(first.disk, rest, runAsRoot, srest) by {
          if runAsRoot {
            forall i | 0 <= i < |srest|
              ensures srest[i].tmp !in first.disk.files &&
                      forall j :: 0 <= j < |rest| ==> srest[i].tmp != rest[j].path
            {
              assert srest[i] == staging[i + 1];
              assert staging[i + 1].tmp != batch[0].path;
              forall j | 0 <= j < |rest| ensures srest[i].tmp != rest[j].path {
                assert rest[j] == batch[j + 1];
              }
            }
          }
        }
        WriteAllSuccess(first.disk, rootOnly, rest, runAsRoot, srest);
      }
    }
  }

  /** A batch runs sequentially: it is its first `k` entries followed by the rest,
      started from the disk the first `k` left. */
  lemma {:induction false} WriteAllSequential(d: Disk, rootOnly: set<Path>, batch: seq<FileEntry>, runAsRoot: bool,
                                              staging: seq<Staging>, k: nat)
    requires |staging| == |batch| && k <= |batch|
    ensures var prefix := WriteAll(d, rootOnly, batch[..k], runAsRoot, staging[..k]);
            WriteAll(d, rootOnly, batch, runAsRoot, staging) ==
              if prefix.out.Raised? then prefix
              else WriteAll(prefix.disk, rootOnly, batch[k..], runAsRoot, staging[k..])
    decreases k
  {
    if k == 0 {
      assert batch[..0] == [] && batch[0..] == batch && staging[0..] == staging;
    } else {
      assert batch[..k][0] == batch[0] && staging[..k][0] == staging[0];
      assert batch[..k][1..] == batch[1..][..k - 1];
      assert staging[..k][1..] == staging[1..][..k - 1];
      assert batch[1..][k - 1..] == batch[k..] && staging[1..][k - 1..] == staging[k..];
      var first := WriteOne(d, rootOnly, batch[0], runAsRoot, staging[0]);
      if first.out.Returned? {
        WriteAllSequential(first.disk, rootOnly, batch[1..], runAsRoot, staging[1..], k - 1);
      }
    }
  }

  /** No rollback: when entry `k` fails after the first `k` succeeded, the earlier
      files stay written, the entries after `k` are never written, and the only other
      trace is the staging file a failed privileged copy leaves behind. */
  lemma FailureKeepsEarlierWrites(d: Disk, rootOnly: set<Path>, batch: seq<FileEntry>, runAsRoot: bool,
                                  staging: seq<Staging>, k: nat)
    requires Consistent(d) && FreshBatch(d, batch, runAsRoot, staging) && k < |batch|
    requires WriteAll(d, rootOnly, batch[..k], runAsRoot, staging[..k]).out.Returned?
    requires if runAsRoot then staging[k].copy.retCode != 0 else batch[k].path in rootOnly
    ensures var w, before := WriteAll(d, rootOnly, batch, runAsRoot, staging), Applied(d.files, batch[..k]);
            w.out.Raised? &&
            w.disk == if runAsRoot then Disk(before[staging[k].tmp := batch[k].data], d.temps + {staging[k].tmp})
                      else Disk(before, d.temps)
  {
    var prefixBatch, prefixStaging := batch[..k], staging[..k];
    assert FreshBatch(d, prefixBatch, runAsRoot, prefixStaging) by {
      if runAsRoot {
        forall i | 0 <= i < |prefixStaging|
          ensures prefixStaging[i].tmp !in d.files &&
                  forall j :: 0 <= j < |prefixBatch| ==> prefixStaging[i].tmp != prefixBatch[j].path
        {
          assert prefixStaging[i] == staging[i];
          forall j | 0 <= j < |prefixBatch| ensures prefixStaging[i].tmp != prefixBatch[j].path {
            assert prefixBatch[j] == batch[j];
          }
        }
      }
    }
    WriteAllSuccess(d, rootOnly, prefixBatch, runAsRoot, prefixStaging);
    WriteAllSequential(d, rootOnly, batch, runAsRoot, staging, k);
    var mid := Disk(Applied(d.files, prefixBatch), d.temps);
    assert batch[k..][0] == batch[k] && staging[k..][0] == staging[k];
    if runAsRoot {
      PrivilegedWriteFails(mid, rootOnly, batch[k], staging[k]);
    }
  }

  /** The paths present after a batch: those before, plus the batch's targets. */
  lemma {:induction false} AppliedKeys(files: map<Path, Bytes>, batch: seq<FileEntry>)
    ensures forall p :: p in Applied(files, batch) ==>
              p in files || exists i :: 0 <= i < |batch| && batch[i].path == p
    ensures files.Keys <= Applied(files, batch).Keys
    ensures forall i :: 0 <= i < |batch| ==> batch[i].path in Applied(files, batch)
    decreases |batch|
  {
    if batch != [] {
      var f1, rest := files[batch[0].path := batch[0].data], batch[1..];
      AppliedKeys(f1, rest);
      assert Applied(files, batch) == Applied(f1, rest);
      forall p | p in Applied(files, batch)
        ensures p in files || exists i :: 0 <= i < |batch| && batch[i].path == p
      {
        if p == batch[0].path {
          assert batch[0].path == p;
        } else if p !in files {
          assert p !in f1;
          var i :| 0 <= i < |rest| && rest[i].path == p;
          assert batch[i + 1].path == p;
        }
      }
      forall i | 0 <= i < |batch| ensures batch[i].path in Applied(files, batch) {
        if i > 0 {
          assert batch[i] == rest[i - 1];
        }
      }
    }
  }

  // ---------------------------------------------------------------------------
  // The guest's filesystem, updated in place

  /** The filesystem the agent works on. `rootOnly` holds the paths whose
      permissions let only root open them. */
  class GuestHost {
    var files: map<Path, Bytes>
    var temps: set<Path>
    const rootOnly: set<Path>

    ghost predicate Valid()
      reads this
    {
      Consistent(State())
    }

    function State(): Disk
      reads this
    {
      Disk(files, temps)
    }

    constructor (files: map<Path, Bytes>, rootOnly: set<Path>)
      ensures Valid()
      ensures State() == Disk(files, {}) && this.rootOnly == rootOnly
    {
      this.files := files;
      this.temps := {};
      this.rootOnly := rootOnly;
    }

    /** `fd, tmp_name = tempfile.mkstemp()`. */
    method MakeStagingFile(tmp: Path)
      requires Valid()
      modifies this
      ensures Valid() && State() == MkStemp(old(State()), tmp)
    {
      files := files[tmp := []];
      temps := temps + {tmp};
    }

    /** `self._execute_command('cp %s %s' % (src, dst), run_as_root=True)` and what the
        copy does to the files. */
    method CopyAsRoot(src: Path, dst: Path, p: ProcessResult) returns (r: Outcome<CommandReturn>)
      requires Valid()
      requires p.retCode == 0 ==> src in files
      modifies this
      ensures Valid() && State() == RootCopy(old(State()), src, dst, p)
      ensures r == CopyOutcome(src, dst, p)
    {
      r := ExecuteCommand(CopyCommand(src, dst), true, false, true, (line: Bytes) => p);
      if p.retCode == 0 {
        files := files[dst := files[src]];
      }
    }

    /** The part of `_safely_unlink` after its `yield`: unlink, ignoring OSError. */
    method SafelyUnlink(tmp: Path)
      requires Valid()
      modifies this
      ensures Valid() && State() == Unlink(old(State()), tmp)
      ensures tmp !in files && tmp !in temps
    {
      if tmp in files {
        files := files - {tmp};
      }
      temps := temps - {tmp};
    }

    method WriteFilesTo(batch: seq<FileEntry>, runAsRoot: bool, staging: seq<Staging>) returns (r: Outcome<()>)
      requires Valid() && |staging| == |batch|
      modifies this
      ensures Valid()
      ensures Step(State(), r) == WriteAll(old(State()), rootOnly, batch, runAsRoot, staging)
    {
      var i := 0;
      while i < |batch|
        invariant 0 <= i <= |batch| && Valid()
        invariant WriteAll(old(State()), rootOnly, batch, runAsRoot, staging) ==
                  WriteAll(State(), rootOnly, batch[i..], runAsRoot, staging[i..])
      {
        var e, s := batch[i], staging[i];
        ghost var before := State();
        assert batch[i..][0] == e && staging[i..][0] == s;
        assert batch[i..][1..] == batch[i + 1..] && staging[i..][1..] == staging[i + 1..];
        ghost var step := WriteOne(before, rootOnly, e, runAsRoot, s);
        if runAsRoot {
          MakeStagingFile(s.tmp);
          files := files[s.tmp := e.data];
          var copied := CopyAsRoot(s.tmp, e.path, s.copy);
          if copied.Raised? {
            r := Raised(copied.error);
            return;
          }
          SafelyUnlink(s.tmp);
        } else {
          if e.path in rootOnly {
            r := Raised(IOError(e.path));
            return;
          }
          files := files[e.path := e.data];
        }
        assert State() == step.disk && step.out.Returned?;
        i := i + 1;
      }
      r := Returned(());
    }

    method ReadFileFrom(path: Path, runAsRoot: bool, s: Staging) returns (r: Outcome<Bytes>)
      requires Valid()
      requires runAsRoot && s.copy.retCode == 0 ==> path in files
      modifies this
      ensures Valid()
      ensures Step(State(), r) == ReadFile(old(State()), rootOnly, path, runAsRoot, s)
    {
      if runAsRoot {
        MakeStagingFile(s.tmp);
        var copied := CopyAsRoot(path, s.tmp, s.copy);
        if copied.Raised? {
          r := Raised(copied.error);
          return;
        }
        var data := files[s.tmp];
        SafelyUnlink(s.tmp);
        r := Returned(data);
      } else if path in files && path !in rootOnly {
        r := Returned(files[path]);
      } else {
        r := Raised(IOError(path));
      }
    }
  }
}
