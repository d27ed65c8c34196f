/** What one update attempt guarantees, proved about `Attempt`, the function
    that `Host.UpdateApplication` is verified to perform. */
module UpdateProperties {
  import opened Wrappers
  import opened Selection
  import opened Archive
  import opened Service
  import opened Updater

  /** How `Attempt` splits into its stages: either the attempt fails before
      anything is written (and `payload` is `None`), or the downloaded
      `payload` is staged in the temporary file and `Install` runs on it,
      after which only the temporary file is removed again. */
  lemma AttemptStages(cfg: Config, env: Env, fs: Files) returns (payload: Option<seq<byte>>)
    requires FreshTemp(cfg, env, fs)
    ensures payload.None? ==>
              Attempt(cfg, env, fs).outcome.Failed? && BeforeBackup(Attempt(cfg, env, fs).outcome.error) &&
              Attempt(cfg, env, fs).fs == fs && Attempt(cfg, env, fs).commands == []
    ensures payload.Some? <==>
              FetchPayload(cfg, env).result.Ok? && FetchPayload(cfg, env).result.value.Some? &&
              !env.tempCreateFails && !env.tempCloseFails
    ensures payload.Some? ==>
              FetchPayload(cfg, env).result == Ok(payload) &&
              InstalledContent(cfg, env) == ArchivePayload(cfg, env, payload.value)
    ensures payload.Some? ==>
              var i := Install(cfg, env, fs[env.tempName := payload.value], payload.value);
              Attempt(cfg, env, fs) == i.(fs := i.fs - {env.tempName}, requests := FetchPayload(cfg, env).requests)
  {
    var fetch := FetchPayload(cfg, env);
    if fetch.result.Ok? && !env.tempCreateFails && fetch.result.value.Some? && !env.tempCloseFails {
      payload := fetch.result.value;
    } else {
      payload := None;
    }
  }

  /** `Install` with a rollback failure: the application is restored from
      the backup (when the restore works) and only `stop` was issued. */
  lemma InstallRollback(cfg: Config, env: Env, fs: Files, archiveBytes: seq<byte>)
    requires !env.restoreFails
    requires Install(cfg, env, fs, archiveBytes).outcome.Failed?
    requires TriggersRollback(Install(cfg, env, fs, archiveBytes).outcome.error)
    ensures cfg.applicationFileName in fs
    ensures Install(cfg, env, fs, archiveBytes).fs == fs[BackupPath(cfg) := fs[cfg.applicationFileName]]
    ensures Install(cfg, env, fs, archiveBytes).commands == ServiceCommands(cfg)[..if cfg.service.enabled then 1 else 0]
  {
    var app := cfg.applicationFileName;
    var saved := fs[BackupPath(cfg) := fs[app]];
    assert BackupPath(cfg) != app by {
      assert |BackupPath(cfg)| > |app|;
    }
    var replaced := Replace(cfg, env, saved, env.unzip(archiveBytes));
    assert replaced.fs == saved;
  }

  /** `Install` with a `systemctl` failure: no rollback; the application is
      the old one if `stop` failed and the archive's payload otherwise. */
  lemma InstallServiceFailure(cfg: Config, env: Env, fs: Files, archiveBytes: seq<byte>)
    requires Install(cfg, env, fs, archiveBytes).outcome.Failed?
    requires Install(cfg, env, fs, archiveBytes).outcome.error.ServiceFailed?
    ensures cfg.service.enabled && cfg.applicationFileName in fs
    ensures var i := Install(cfg, env, fs, archiveBytes);
      1 <= |i.commands| <= 5 && i.commands == ServiceCommands(cfg)[..|i.commands|]
    ensures var i := Install(cfg, env, fs, archiveBytes);
      |i.commands| == 1 ==> i.fs == fs[BackupPath(cfg) := fs[cfg.applicationFileName]]
    ensures var i := Install(cfg, env, fs, archiveBytes);
      |i.commands| > 1 ==>
        ArchivePayload(cfg, env, archiveBytes).Some? &&
        i.fs == fs[BackupPath(cfg) := fs[cfg.applicationFileName]]
                  [cfg.applicationFileName := ArchivePayload(cfg, env, archiveBytes).value]
  {
    var app := cfg.applicationFileName;
    var saved := fs[BackupPath(cfg) := fs[app]];
    var name := cfg.service.name;
    var stop := ServicePhase(cfg, env, StopCommands(name));
    if stop.failure.None? {
      var replaced := Replace(cfg, env, saved, env.unzip(archiveBytes));
      var start := ServicePhase(cfg, env, StartCommands(name));
      assert replaced.fs == saved[app := ArchivePayload(cfg, env, archiveBytes).value];
      assert ServiceCommands(cfg)[..1 + |start.issued|] == stop.issued + start.issued;
    }
  }

  /** `Install` that completes: the payload is the application, the backup
      holds the old one, and every service command was issued. */
  lemma InstallCompleted(cfg: Config, env: Env, fs: Files, archiveBytes: seq<byte>)
    requires Install(cfg, env, fs, archiveBytes).outcome.Completed?
    ensures cfg.applicationFileName in fs && ArchivePayload(cfg, env, archiveBytes).Some?
    ensures Install(cfg, env, fs, archiveBytes).fs ==
      fs[BackupPath(cfg) := fs[cfg.applicationFileName]][cfg.applicationFileName := ArchivePayload(cfg, env, archiveBytes).value]
    ensures Install(cfg, env, fs, archiveBytes).commands == ServiceCommands(cfg)
  {
    var app := cfg.applicationFileName;
    var saved := fs[BackupPath(cfg) := fs[app]];
    var replaced := Replace(cfg, env, saved, env.unzip(archiveBytes));
    assert replaced.fs == saved[app := ArchivePayload(cfg, env, archiveBytes).value];
  }

  /** The commands `Install` issues are a prefix of the service sequence, and
      it changes the application only after a successful `stop`. */
  lemma InstallCommands(cfg: Config, env: Env, fs: Files, archiveBytes: seq<byte>)
    ensures var i := Install(cfg, env, fs, archiveBytes);
      |i.commands| <= |ServiceCommands(cfg)| && i.commands == ServiceCommands(cfg)[..|i.commands|]
    ensures !cfg.service.enabled ==> Install(cfg, env, fs, archiveBytes).commands == []
    ensures var i := Install(cfg, env, fs, archiveBytes); var app := cfg.applicationFileName;
      cfg.service.enabled && app in fs && app in i.fs && i.fs[app] != fs[app] ==>
        1 <= |i.commands| && i.commands[0] == ["stop", cfg.service.name] &&
        Classify(["stop", cfg.service.name], env.systemctl(["stop", cfg.service.name])).None?
  {
    var app := cfg.applicationFileName;
    assert BackupPath(cfg) != app by {
      assert |BackupPath(cfg)| > |app|;
    }
    if app in fs && !env.backupWriteFails {
      var stop := ServicePhase(cfg, env, StopCommands(cfg.service.name));
      if stop.failure.None? {
        var start := ServicePhase(cfg, env, StartCommands(cfg.service.name));
        assert ServiceCommands(cfg)[..|stop.issued| + |start.issued|] == stop.issued + start.issued;
      }
    }
  }

  /** A failure before the backup is written (a request, the artifact list,
      the selection, the download, reading the old application or writing the
      backup) leaves every file as it was and issues no `systemctl` command. */
  lemma PreBackupFailureChangesNothing(cfg: Config, env: Env, fs: Files)
    requires FreshTemp(cfg, env, fs)
    requires Attempt(cfg, env, fs).outcome.Failed?
    requires BeforeBackup(Attempt(cfg, env, fs).outcome.error)
    ensures Attempt(cfg, env, fs).fs == fs
    ensures Attempt(cfg, env, fs).commands == []
  {
    var payload := AttemptStages(cfg, env, fs);
    if payload.Some? {
      var staged := fs[env.tempName := payload.value];
      assert staged - {env.tempName} == fs;
    }
  }

  /** Once the attempt gets past the backup, whatever happens next, the backup
      file holds exactly the application's content from before the attempt. */
  lemma BackupHoldsPreviousApplication(cfg: Config, env: Env, fs: Files)
    requires FreshTemp(cfg, env, fs)
    requires var e := Attempt(cfg, env, fs); e.outcome.Completed? || !BeforeBackup(e.outcome.error)
    ensures cfg.applicationFileName in fs
    ensures BackupPath(cfg) in Attempt(cfg, env, fs).fs
    ensures Attempt(cfg, env, fs).fs[BackupPath(cfg)] == fs[cfg.applicationFileName]
  {
    var payload := AttemptStages(cfg, env, fs);
  }

  /** A failure while replacing the application (opening or truncating it,
      opening the archive, finding, opening or copying the payload entry,
      closing the file) restores the backup: when the restore itself works, the
      application is byte-identical to its content before the attempt, the
      attempt still reports the failure, and only the stop command was issued. */
  lemma RollbackRestoresApplication(cfg: Config, env: Env, fs: Files)
    requires FreshTemp(cfg, env, fs) && !env.restoreFails
    requires Attempt(cfg, env, fs).outcome.Failed?
    requires TriggersRollback(Attempt(cfg, env, fs).outcome.error)
    ensures cfg.applicationFileName in fs
    ensures Attempt(cfg, env, fs).fs == fs[BackupPath(cfg) := fs[cfg.applicationFileName]]
    ensures Attempt(cfg, env, fs).commands == ServiceCommands(cfg)[..if cfg.service.enabled then 1 else 0]
  {
    var payload := AttemptStages(cfg, env, fs);
    var staged := fs[env.tempName := payload.value];
    InstallRollback(cfg, env, staged, payload.value);
    var app := cfg.applicationFileName;
    assert staged[BackupPath(cfg) := staged[app]] - {env.tempName} == fs[BackupPath(cfg) := fs[app]];
  }

  /** A failing `systemctl` command ends the attempt without any rollback. If
      `stop` failed, the application was never touched; if a command of the
      start sequence failed, the new application stays installed. The backup
      is kept in both cases. */
  lemma ServiceFailureKeepsBinary(cfg: Config, env: Env, fs: Files)
    requires FreshTemp(cfg, env, fs)
    requires Attempt(cfg, env, fs).outcome.Failed?
    requires Attempt(cfg, env, fs).outcome.error.ServiceFailed?
    ensures cfg.service.enabled && cfg.applicationFileName in fs
    ensures var e := Attempt(cfg, env, fs);
      1 <= |e.commands| <= 5 && e.commands == ServiceCommands(cfg)[..|e.commands|]
    ensures var e := Attempt(cfg, env, fs);
      |e.commands| == 1 ==> e.fs == fs[BackupPath(cfg) := fs[cfg.applicationFileName]]
    ensures var e := Attempt(cfg, env, fs);
      |e.commands| > 1 ==>
        InstalledContent(cfg, env).Some? &&
        e.fs == fs[BackupPath(cfg) := fs[cfg.applicationFileName]]
                  [cfg.applicationFileName := InstalledContent(cfg, env).value]
  {
    var payload := AttemptStages(cfg, env, fs);
    var staged := fs[env.tempName := payload.value];
    InstallServiceFailure(cfg, env, staged, payload.value);
    var app := cfg.applicationFileName;
    var saved := staged[BackupPath(cfg) := staged[app]];
    assert saved - {env.tempName} == fs[BackupPath(cfg) := fs[app]];
    if ArchivePayload(cfg, env, payload.value).Some? {
      var data := ArchivePayload(cfg, env, payload.value).value;
      assert saved[app := data] - {env.tempName} == fs[BackupPath(cfg) := fs[app]][app := data];
    }
  }

  /** A completed attempt leaves the first payload entry of the archive, in
      archive order, as the application, keeps the backup of the previous
      content, changes no other file, and issued the full command sequence
      (`stop`, `daemon-reload`, `start`, `enable`, `status`) if and only if the
      service is enabled. */
  lemma CompletedInstallsFirstPayload(cfg: Config, env: Env, fs: Files)
    requires FreshTemp(cfg, env, fs)
    requires Attempt(cfg, env, fs).outcome.Completed?
    ensures cfg.applicationFileName in fs && InstalledContent(cfg, env).Some?
    ensures Attempt(cfg, env, fs).fs ==
      fs[BackupPath(cfg) := fs[cfg.applicationFileName]][cfg.applicationFileName := InstalledContent(cfg, env).value]
    ensures Attempt(cfg, env, fs).commands == ServiceCommands(cfg)
    ensures |Attempt(cfg, env, fs).requests| == 3
  {
    var payload := AttemptStages(cfg, env, fs);
    var staged := fs[env.tempName := payload.value];
    InstallCompleted(cfg, env, staged, payload.value);
    var app := cfg.applicationFileName;
    var data := InstalledContent(cfg, env).value;
    assert staged[BackupPath(cfg) := staged[app]][app := data] - {env.tempName}
        == fs[BackupPath(cfg) := fs[app]][app := data];
  }

  /** Whatever the outcome, the commands issued are a prefix of the service
      command sequence, none at all when the service is disabled; and the
      application file never changes unless `stop` was issued and succeeded
      first (for an enabled service). */
  lemma CommandTrace(cfg: Config, env: Env, fs: Files)
    requires FreshTemp(cfg, env, fs)
    ensures var e := Attempt(cfg, env, fs);
      |e.commands| <= |ServiceCommands(cfg)| && e.commands == ServiceCommands(cfg)[..|e.commands|]
    ensures !cfg.service.enabled ==> Attempt(cfg, env, fs).commands == []
    ensures var e := Attempt(cfg, env, fs); var app := cfg.applicationFileName;
      cfg.service.enabled && app in fs && app in e.fs && e.fs[app] != fs[app] ==>
        1 <= |e.commands| && e.commands[0] == ["stop", cfg.service.name] &&
        Classify(["stop", cfg.service.name], env.systemctl(["stop", cfg.service.name])).None?
  {
    var payload := AttemptStages(cfg, env, fs);
    if payload.Some? {
      InstallCommands(cfg, env, fs[env.tempName := payload.value], payload.value);
    }
  }

  /** The payload `p` was downloaded and saved in the temporary file. */
  predicate Staged(cfg: Config, env: Env, p: seq<byte>) {
    FetchPayload(cfg, env).result == Ok(Some(p)) && !env.tempCreateFails && !env.tempCloseFails
  }

  /** The old application was read and the backup written. */
  predicate BackedUp(cfg: Config, env: Env, fs: Files) {
    cfg.applicationFileName in fs && !env.backupWriteFails
  }

  /** `systemctl stop` exits 0, or the service is not managed. */
  predicate StopSucceeds(cfg: Config, env: Env) {
    cfg.service.enabled ==>
      Classify(["stop", cfg.service.name], env.systemctl(["stop", cfg.service.name])).None?
  }

  /** Some step of the replacement goes wrong: opening the application, the
      archive, finding or opening the payload entry, copying, or closing. */
  predicate ReplaceFault(cfg: Config, env: Env, archiveBytes: seq<byte>) {
    env.openAppFails || ArchivePayload(cfg, env, archiveBytes).None? ||
    env.entryOpenFails || env.copyFailsAfter.Some? || env.closeFails
  }

  /** Every command of the start sequence exits 0, or the service is not
      managed. */
  predicate StartSucceeds(cfg: Config, env: Env) {
    cfg.service.enabled ==>
      forall j :: 0 <= j < 4 ==>
        Classify(StartCommands(cfg.service.name)[j], env.systemctl(StartCommands(cfg.service.name)[j])).None?
  }

  /** `Install` where the replacement goes wrong after a good backup and
      `stop`: the outcome is a failure of a rollback kind. */
  lemma InstallReplaceFault(cfg: Config, env: Env, fs: Files, archiveBytes: seq<byte>)
    requires BackedUp(cfg, env, fs) && StopSucceeds(cfg, env) && ReplaceFault(cfg, env, archiveBytes)
    ensures Install(cfg, env, fs, archiveBytes).outcome.Failed?
    ensures TriggersRollback(Install(cfg, env, fs, archiveBytes).outcome.error)
  {
    var saved := fs[BackupPath(cfg) := fs[cfg.applicationFileName]];
    var replaced := Replace(cfg, env, saved, env.unzip(archiveBytes));
    assert replaced.failure.Some?;
  }

  /** `Install` where `stop` fails: the failure is reported as that command's,
      nothing else was issued, and the application was never touched. */
  lemma InstallStopFailure(cfg: Config, env: Env, fs: Files, archiveBytes: seq<byte>)
    requires BackedUp(cfg, env, fs) && !StopSucceeds(cfg, env)
    ensures var stop := ["stop", cfg.service.name];
      Install(cfg, env, fs, archiveBytes).outcome ==
        Failed(ServiceFailed(Classify(stop, env.systemctl(stop)).value))
    ensures Install(cfg, env, fs, archiveBytes).commands == [["stop", cfg.service.name]]
    ensures Install(cfg, env, fs, archiveBytes).fs == fs[BackupPath(cfg) := fs[cfg.applicationFileName]]
  {
    var stop := ["stop", cfg.service.name];
    assert StopCommands(cfg.service.name) == [stop];
    assert RunCommands(env.systemctl, [stop]) == CommandRun([stop], Classify(stop, env.systemctl(stop)));
  }

  /** `Install` where a command of the start sequence fails after a good
      replacement: the failure is the last issued command's, and the new
      application stays installed. */
  lemma InstallStartFailure(cfg: Config, env: Env, fs: Files, archiveBytes: seq<byte>)
    requires BackedUp(cfg, env, fs) && StopSucceeds(cfg, env) && !ReplaceFault(cfg, env, archiveBytes)
    requires !StartSucceeds(cfg, env)
    ensures var i := Install(cfg, env, fs, archiveBytes);
      2 <= |i.commands| <= 5 && i.outcome.Failed? &&
      i.outcome.error ==
        ServiceFailed(Classify(i.commands[|i.commands| - 1], env.systemctl(i.commands[|i.commands| - 1])).value)
    ensures var i := Install(cfg, env, fs, archiveBytes);
      cfg.applicationFileName in i.fs && i.fs[cfg.applicationFileName] == ArchivePayload(cfg, env, archiveBytes).value
  {
    var name := cfg.service.name;
    var saved := fs[BackupPath(cfg) := fs[cfg.applicationFileName]];
    var stop := ServicePhase(cfg, env, StopCommands(name));
    assert RunCommands(env.systemctl, StopCommands(name)).failure.None?;
    var replaced := Replace(cfg, env, saved, env.unzip(archiveBytes));
    assert replaced.failure.None?;
    var start := ServicePhase(cfg, env, StartCommands(name));
    assert start.failure.Some?;
    var i := Install(cfg, env, fs, archiveBytes);
    assert i.commands == stop.issued + start.issued;
    assert i.commands[|i.commands| - 1] == StartCommands(name)[|start.issued| - 1];
  }

  /** `Install` with no fault at all completes. */
  lemma InstallFaultFree(cfg: Config, env: Env, fs: Files, archiveBytes: seq<byte>)
    requires BackedUp(cfg, env, fs) && StopSucceeds(cfg, env) && !ReplaceFault(cfg, env, archiveBytes)
    requires StartSucceeds(cfg, env)
    ensures Install(cfg, env, fs, archiveBytes).outcome == Completed
  {
    var name := cfg.service.name;
    var saved := fs[BackupPath(cfg) := fs[cfg.applicationFileName]];
    var replaced := Replace(cfg, env, saved, env.unzip(archiveBytes));
    assert replaced.failure.None?;
    if cfg.service.enabled {
      assert RunCommands(env.systemctl, StopCommands(name)).failure.None?;
    }
  }

  /** The download phase with good replies: the artifact list arrives with
      status 200 and an artifact is selected, the redirect answers 302 with
      a location, the payload answers 200 with its bytes, and the temporary
      file is created and closed. Then the payload is staged. */
  lemma GoodRepliesStagePayload(cfg: Config, env: Env, arts: seq<Artifact>, location: string, p: seq<byte>)
    requires env.listReply == Reply(ListStatus, Some(arts))
    requires Select(arts, cfg.artifactName, env.parse).Ok?
    requires env.redirectReply == Reply(RedirectStatus, Some(location))
    requires env.payloadReply == Reply(PayloadStatus, Some(p))
    requires !env.tempCreateFails && !env.tempCloseFails
    ensures Staged(cfg, env, p)
    ensures FetchPayload(cfg, env).requests ==
      [Request(cfg.artifactApi, true),
       Request(Select(arts, cfg.artifactName, env.parse).value.archiveDownloadUrl, true),
       Request(location, false)]
  {
  }

  /** A fault injected in the replacement, after the download, the backup
      and a good `stop`, makes the attempt report a rollback failure, never
      success; with a working restore the application is the old one again. */
  lemma ReplaceFaultRollsBack(cfg: Config, env: Env, fs: Files, p: seq<byte>)
    requires FreshTemp(cfg, env, fs) && Staged(cfg, env, p)
    requires BackedUp(cfg, env, fs) && StopSucceeds(cfg, env) && ReplaceFault(cfg, env, p)
    ensures Attempt(cfg, env, fs).outcome.Failed?
    ensures TriggersRollback(Attempt(cfg, env, fs).outcome.error)
    ensures !env.restoreFails ==>
              Attempt(cfg, env, fs).fs == fs[BackupPath(cfg) := fs[cfg.applicationFileName]]
  {
    var payload := AttemptStages(cfg, env, fs);
    InstallReplaceFault(cfg, env, fs[env.tempName := p], p);
    if !env.restoreFails {
      RollbackRestoresApplication(cfg, env, fs);
    }
  }

  /** A failing `stop` makes the attempt report that command's failure with
      the application untouched. */
  lemma StopFailureReported(cfg: Config, env: Env, fs: Files, p: seq<byte>)
    requires FreshTemp(cfg, env, fs) && Staged(cfg, env, p)
    requires BackedUp(cfg, env, fs) && !StopSucceeds(cfg, env)
    ensures var stop := ["stop", cfg.service.name];
      Attempt(cfg, env, fs).outcome == Failed(ServiceFailed(Classify(stop, env.systemctl(stop)).value))
    ensures Attempt(cfg, env, fs).commands == [["stop", cfg.service.name]]
    ensures Attempt(cfg, env, fs).fs == fs[BackupPath(cfg) := fs[cfg.applicationFileName]]
  {
    var payload := AttemptStages(cfg, env, fs);
    var staged := fs[env.tempName := p];
    InstallStopFailure(cfg, env, staged, p);
    var app := cfg.applicationFileName;
    UnstageUpdated(fs, env.tempName, p, BackupPath(cfg), fs[app], app, fs[app]);
    assert fs[BackupPath(cfg) := fs[app]][app := fs[app]] == fs[BackupPath(cfg) := fs[app]];
    assert staged[BackupPath(cfg) := fs[app]][app := fs[app]] == staged[BackupPath(cfg) := staged[app]];
  }

  /** A failing command of the start sequence (`daemon-reload`, `start`,
      `enable` or `status`) makes the attempt report that command's failure,
      and the new application stays installed without a rollback. */
  lemma StartFailureReported(cfg: Config, env: Env, fs: Files, p: seq<byte>)
    requires FreshTemp(cfg, env, fs) && Staged(cfg, env, p)
    requires BackedUp(cfg, env, fs) && StopSucceeds(cfg, env) && !ReplaceFault(cfg, env, p)
    requires !StartSucceeds(cfg, env)
    ensures var e := Attempt(cfg, env, fs);
      2 <= |e.commands| <= 5 && e.outcome.Failed? &&
      e.outcome.error ==
        ServiceFailed(Classify(e.commands[|e.commands| - 1], env.systemctl(e.commands[|e.commands| - 1])).value)
    ensures var e := Attempt(cfg, env, fs);
      cfg.applicationFileName in e.fs && e.fs[cfg.applicationFileName] == InstalledContent(cfg, env).value
  {
    var payload := AttemptStages(cfg, env, fs);
    InstallStartFailure(cfg, env, fs[env.tempName := p], p);
  }

  /** With every download step, file operation and `systemctl` command
      succeeding, the attempt completes. */
  lemma FaultFreeAttemptCompletes(cfg: Config, env: Env, fs: Files, p: seq<byte>)
    requires FreshTemp(cfg, env, fs) && Staged(cfg, env, p)
    requires BackedUp(cfg, env, fs) && StopSucceeds(cfg, env) && !ReplaceFault(cfg, env, p)
    requires StartSucceeds(cfg, env)
    ensures Attempt(cfg, env, fs).outcome == Completed
  {
    var payload := AttemptStages(cfg, env, fs);
    InstallFaultFree(cfg, env, fs[env.tempName := p], p);
  }

  /** The requests issued: always the artifact list with the API headers
      first; then, only if an artifact was selected, its download redirect with
      the API headers; then, only if that gave a location, the payload without
      them. Nothing on disk changes and no command is issued unless all three
      were sent. */
  lemma RequestTrace(cfg: Config, env: Env, fs: Files)
    requires FreshTemp(cfg, env, fs)
    ensures var e := Attempt(cfg, env, fs);
      1 <= |e.requests| <= 3 && e.requests[0] == Request(cfg.artifactApi, true)
    ensures var e := Attempt(cfg, env, fs);
      |e.requests| >= 2 ==>
        env.listReply == Reply(ListStatus, env.listReply.body) && env.listReply.body.Some? &&
        Select(env.listReply.body.value, cfg.artifactName, env.parse).Ok? &&
        e.requests[1] == Request(Select(env.listReply.body.value, cfg.artifactName, env.parse).value.archiveDownloadUrl, true)
    ensures var e := Attempt(cfg, env, fs);
      |e.requests| == 3 ==>
        env.redirectReply.Reply? && env.redirectReply.status == RedirectStatus &&
        env.redirectReply.body.Some? && e.requests[2] == Request(env.redirectReply.body.value, false)
    ensures var e := Attempt(cfg, env, fs);
      |e.requests| < 3 ==> e.outcome.Failed? && e.fs == fs && e.commands == []
  {
  }

  /** If no artifact of the list has the configured name and is unexpired, the
      attempt fails with NotFound right after the list request. */
  lemma NoEligibleArtifactFailsEarly(cfg: Config, env: Env, fs: Files, arts: seq<Artifact>)
    requires env.listReply == Reply(ListStatus, Some(arts))
    requires forall a :: a in arts ==> !Eligible(a, cfg.artifactName)
    ensures Attempt(cfg, env, fs) ==
      Effect(Failed(ResolveFailed(NotFound(cfg.artifactName))), fs, [], [Request(cfg.artifactApi, true)])
  {
    SelectNotFound(arts, cfg.artifactName, env.parse);
  }

  /** An attempt writes only the application and its backup: the files are
      either untouched, or the backup holds the old application and only the
      application itself differs. The temporary archive is gone afterwards. */
  lemma OnlyApplicationAndBackupChange(cfg: Config, env: Env, fs: Files)
    requires FreshTemp(cfg, env, fs)
    ensures var e := Attempt(cfg, env, fs); var app := cfg.applicationFileName;
      e.fs == fs ||
      (app in fs && app in e.fs && e.fs == fs[BackupPath(cfg) := fs[app]][app := e.fs[app]])
    ensures env.tempName !in Attempt(cfg, env, fs).fs
  {
    var app := cfg.applicationFileName;
    var payload := AttemptStages(cfg, env, fs);
    if payload.Some? {
      var installed := Install(cfg, env, fs[env.tempName := payload.value], payload.value);
      if installed.outcome.Failed? && BeforeBackup(installed.outcome.error) {
        Unstage(fs, env.tempName, payload.value);
      } else {
        UnstageUpdated(fs, env.tempName, payload.value, BackupPath(cfg), fs[app], app, installed.fs[app]);
      }
    }
  }

  /** Removing the temporary file again undoes staging it. */
  lemma Unstage(base: Files, t: string, v: seq<byte>)
    requires t !in base
    ensures base[t := v] - {t} == base
  {
    assert (base[t := v] - {t}).Keys == base.Keys;
  }

  /** Removing the temporary file again after two other files were written
      leaves just those two writes. */
  lemma UnstageUpdated(base: Files, t: string, v: seq<byte>, b: string, x: seq<byte>, a: string, y: seq<byte>)
    requires t !in base && t != a && t != b
    ensures base[t := v][b := x][a := y] - {t} == base[b := x][a := y]
  {
    assert (base[t := v][b := x][a := y] - {t}).Keys == base[b := x][a := y].Keys;
  }

  /** The end-to-end example: the registry lists one unexpired artifact `app`
      created at 2024-01-01T00:00:00Z, the redirect gives a payload location,
      the archive holds `build/app.jar`, and no service is configured. */
  function ExampleConfig(): Config {
    Config("https://registry/artifacts", "app", "app.jar", "build/", ".jar", ServiceConfig(false, "app"))
  }

  function ExampleArtifact(): Artifact {
    Artifact(1, "app", "https://registry/artifacts/1", "https://registry/artifacts/1/zip", false, "2024-01-01T00:00:00Z")
  }

  /** The example's environment; its parser rejects every timestamp, which
      does not matter with a single candidate. */
  function ExampleEnv(archive: seq<byte>, jar: seq<byte>): Env {
    Env(Reply(200, Some([ExampleArtifact()])),
        Reply(302, Some("https://blobs/app.zip")),
        Reply(200, Some(archive)),
        s => None,
        "/tmp/app_1.zip",
        false, false, false,
        args => Exited(0),
        false,
        bytes => if bytes == archive then Some([Entry("build/app.jar", jar)]) else None,
        false, None, false, false)
  }

  lemma EndToEndExample(fs: Files, archive: seq<byte>, jar: seq<byte>)
    requires "app.jar" in fs && "/tmp/app_1.zip" !in fs
    ensures var e := Attempt(ExampleConfig(), ExampleEnv(archive, jar), fs);
      e.outcome == Completed &&
      e.fs == fs["app.jar.backup" := fs["app.jar"]]["app.jar" := jar] &&
      e.commands == [] &&
      e.requests == [Request("https://registry/artifacts", true),
                     Request("https://registry/artifacts/1/zip", true),
                     Request("https://blobs/app.zip", false)]
  {
    var cfg, env := ExampleConfig(), ExampleEnv(archive, jar);
    SelectSingle([ExampleArtifact()], "app", env.parse, 0);
    assert IsPayload(Entry("build/app.jar", jar), "build/", ".jar");
    assert FirstPayload([Entry("build/app.jar", jar)], "build/", ".jar") == Some(0);
    assert BackupPath(cfg) == "app.jar.backup";
    var staged := fs["/tmp/app_1.zip" := archive];
    assert staged["app.jar.backup" := fs["app.jar"]]["app.jar" := jar] - {"/tmp/app_1.zip"}
        == fs["app.jar.backup" := fs["app.jar"]]["app.jar" := jar];
  }
}
