/** The update coordinator `updateApplication` (updater.go:109-219) with its
    helpers `doRequest`, `runSystemctlCommand`, `restoreOldApplication` and
    `checkError`, and the `/update` trigger of updater.go:87-101.

    The network, the JSON decoder, the zip reader, the timestamp parser, the
    temporary file name and every way a file operation can fail are inputs,
    gathered in an `Env`. A Go panic becomes a `Failed` outcome; `checkError(err, cb)`
    becomes "run the rollback, then fail". The effect of one attempt is given
    by the function `Attempt`, and the class `Host`, which holds the file
    system and the traces of issued commands and requests, performs it step by
    step. */
module Updater {
  import opened Wrappers
  import opened Selection
  import opened Archive
  import opened Service

  /** The file system: path to content. */
  type Files = map<string, seq<byte>>

  datatype ServiceConfig = ServiceConfig(enabled: bool, name: string)

  /** The configuration file's content (updater.go:33-43). */
  datatype Config = Config(
    artifactApi: string,
    artifactName: string,
    applicationFileName: string,
    updatedPrefix: string,
    updatedSuffix: string,
    service: ServiceConfig)

  /** Where the previous application is saved (updater.go:171). */
  function BackupPath(cfg: Config): string {
    cfg.applicationFileName + ".backup"
  }

  /** The answer to one HTTP request: none at all (the request could not be
      built or sent), or a status and the body read from it (`None` when
      reading or decoding the body failed). For the redirect the body is the
      `Location` header. */
  datatype Reply<T> = NoResponse | Reply(status: int, body: Option<T>)

  /** An attempted request: its URL and whether it carried the registry API
      headers (the payload request does not, updater.go:155). The trace holds
      every request `doRequest` was called for, including one that could not
      be built and so was never sent. */
  datatype Request = Request(url: string, apiHeaders: bool)

  /** Everything the attempt learns from outside. */
  datatype Env = Env(
    listReply: Reply<seq<Artifact>>,   // artifact list, already JSON-decoded
    redirectReply: Reply<string>,      // download redirect and its Location
    payloadReply: Reply<seq<byte>>,    // archive bytes (None: the copy failed)
    parse: Parser,                     // RFC 3339 parsing of creation times
    tempName: string,                  // the name os.CreateTemp picks
    tempCreateFails: bool,
    tempCloseFails: bool,
    backupWriteFails: bool,
    systemctl: Systemctl,
    openAppFails: bool,                // os.OpenFile with O_TRUNC
    unzip: seq<byte> -> Option<seq<Entry>>, // zip.OpenReader; None: not an archive
    entryOpenFails: bool,
    copyFailsAfter: Option<nat>,       // io.Copy fails after writing this many bytes
    closeFails: bool,
    restoreFails: bool)                // reading the backup or rewriting the app fails

  /** The causes of a failed attempt. */
  datatype UpdateError =
    | RequestFailed(url: string)
    | UnexpectedStatus(url: string, expected: int, actual: int)
    | UnreadableArtifactList
    | ResolveFailed(reason: SelectError)
    | MissingLocation
    | TempCreateFailed
    | DownloadFailed
    | TempCloseFailed
    | CannotReadApplication
    | CannotWriteBackup
    | ServiceFailed(failure: ServiceError)
    | CannotOpenApplication
    | CannotOpenArchive
    | CannotOpenEntry
    | CopyFailed
    | CloseFailed
    | NoPayloadEntry

  /** Failures raised before the backup is written (updater.go:109-172). */
  predicate BeforeBackup(e: UpdateError) {
    e.RequestFailed? || e.UnexpectedStatus? || e.UnreadableArtifactList? ||
    e.ResolveFailed? || e.MissingLocation? || e.TempCreateFailed? ||
    e.DownloadFailed? || e.TempCloseFailed? || e.CannotReadApplication? ||
    e.CannotWriteBackup?
  }

  /** Failures that restore the backup (updater.go:182-203). */
  predicate TriggersRollback(e: UpdateError) {
    e.CannotOpenApplication? || e.CannotOpenArchive? || e.CannotOpenEntry? ||
    e.CopyFailed? || e.CloseFailed? || e.NoPayloadEntry?
  }

  datatype Outcome = Completed | Failed(error: UpdateError)

  /** What one attempt did: its outcome, the file system afterwards, and the
      `systemctl` commands and HTTP requests it issued, in order. */
  datatype Effect = Effect(outcome: Outcome, fs: Files, commands: seq<seq<string>>, requests: seq<Request>)

  const ListStatus := 200
  const RedirectStatus := 302
  const PayloadStatus := 200

  /** The status check of `doRequest` (updater.go:253-260): the response is
      used only when its status is exactly the expected one. */
  function Receive<T>(url: string, expected: int, reply: Reply<T>): (r: Result<Option<T>, UpdateError>)
    ensures r.Ok? <==> reply.Reply? && reply.status == expected
    ensures r.Ok? ==> r.value == reply.body
    ensures reply.NoResponse? ==> r == Err(RequestFailed(url))
    ensures reply.Reply? && reply.status != expected ==>
              r == Err(UnexpectedStatus(url, expected, reply.status))
  {
    match reply
    case NoResponse => Err(RequestFailed(url))
    case Reply(status, body) =>
      if status == expected then Ok(body) else Err(UnexpectedStatus(url, expected, status))
  }

  /** The requests issued while resolving and downloading, and either the
      archive bytes (`None`: the transfer broke off) or the failure. */
  datatype Fetch = Fetch(requests: seq<Request>, result: Result<Option<seq<byte>>, UpdateError>)

  /** Steps updater.go:110-155: list, select, redirect, payload request. */
  function FetchPayload(cfg: Config, env: Env): (r: Fetch)
    ensures 1 <= |r.requests| <= 3 && r.requests[0] == Request(cfg.artifactApi, true)
    ensures r.result.Err? ==> BeforeBackup(r.result.error)
    ensures r.result.Ok? ==> |r.requests| == 3
    ensures r.result.Ok? ==>
              env.payloadReply.Reply? && env.payloadReply.status == PayloadStatus &&
              r.result.value == env.payloadReply.body
    ensures |r.requests| == 3 && env.payloadReply.Reply? && env.payloadReply.status != PayloadStatus ==>
              r.result == Err(UnexpectedStatus(r.requests[2].url, PayloadStatus, env.payloadReply.status))
  {
    var listRequest := Request(cfg.artifactApi, true);
    match Receive(cfg.artifactApi, ListStatus, env.listReply)
    case Err(e) => Fetch([listRequest], Err(e))
    case Ok(None) => Fetch([listRequest], Err(UnreadableArtifactList))
    case Ok(Some(artifacts)) =>
      match Select(artifacts, cfg.artifactName, env.parse)
      case Err(reason) => Fetch([listRequest], Err(ResolveFailed(reason)))
      case Ok(chosen) =>
        var redirectRequest := Request(chosen.archiveDownloadUrl, true);
        match Receive(chosen.archiveDownloadUrl, RedirectStatus, env.redirectReply)
        case Err(e) => Fetch([listRequest, redirectRequest], Err(e))
        case Ok(None) => Fetch([listRequest, redirectRequest], Err(MissingLocation))
        case Ok(Some(location)) =>
          Fetch([listRequest, redirectRequest, Request(location, false)],
                Receive(location, PayloadStatus, env.payloadReply))
  }

  /** `restoreOldApplication` (updater.go:234-241). */
  function Restore(cfg: Config, env: Env, fs: Files): (r: Files)
    requires BackupPath(cfg) in fs
    ensures env.restoreFails ==> r == fs
    ensures fs.Keys <= r.Keys <= fs.Keys + {cfg.applicationFileName}
    ensures r[BackupPath(cfg)] == fs[BackupPath(cfg)]
    ensures !env.restoreFails ==>
              cfg.applicationFileName in r && r[cfg.applicationFileName] == r[BackupPath(cfg)]
    ensures forall f :: f in fs && f != cfg.applicationFileName ==> r[f] == fs[f]
  {
    assert BackupPath(cfg) != cfg.applicationFileName by {
      assert |BackupPath(cfg)| > |cfg.applicationFileName|;
    }
    if env.restoreFails then fs else fs[cfg.applicationFileName := fs[BackupPath(cfg)]]
  }

  /** The result of the replacement step: the failure, if any, and the files. */
  datatype Step = Step(failure: Option<UpdateError>, fs: Files)

  function Min(a: nat, b: nat): nat {
    if a < b then a else b
  }

  /** Steps updater.go:181-206: truncate the application, open the archive,
      copy its first payload entry over the application; every failure here
      restores the backup before it is reported. */
  function Replace(cfg: Config, env: Env, fs: Files, archive: Option<seq<Entry>>): (r: Step)
    requires BackupPath(cfg) in fs && cfg.applicationFileName in fs
    ensures r.failure.Some? ==> TriggersRollback(r.failure.value)
    ensures cfg.applicationFileName in r.fs
    ensures r.fs == fs[cfg.applicationFileName := r.fs[cfg.applicationFileName]]
    ensures r.failure.Some? && !env.restoreFails ==>
              r.fs == fs[cfg.applicationFileName := fs[BackupPath(cfg)]]
    ensures r.failure.None? ==>
              archive.Some? && FirstPayload(archive.value, cfg.updatedPrefix, cfg.updatedSuffix).Some? &&
              r.fs == fs[cfg.applicationFileName :=
                           archive.value[FirstPayload(archive.value, cfg.updatedPrefix, cfg.updatedSuffix).value].data]
    ensures r.failure.None? <==>
              !env.openAppFails && archive.Some? &&
              FirstPayload(archive.value, cfg.updatedPrefix, cfg.updatedSuffix).Some? &&
              !env.entryOpenFails && env.copyFailsAfter.None? && !env.closeFails
    ensures env.openAppFails ==> r.failure == Some(CannotOpenApplication)
    ensures !env.openAppFails && archive.None? ==> r.failure == Some(CannotOpenArchive)
    ensures !env.openAppFails && archive.Some? &&
            FirstPayload(archive.value, cfg.updatedPrefix, cfg.updatedSuffix).None? ==>
              r.failure == Some(NoPayloadEntry)
  {
    var app := cfg.applicationFileName;
    assert BackupPath(cfg) != app by {
      assert |BackupPath(cfg)| > |app|;
    }
    if env.openAppFails then Step(Some(CannotOpenApplication), Restore(cfg, env, fs))
    else
      var truncated := fs[app := []];
      match archive
      case None => Step(Some(CannotOpenArchive), Restore(cfg, env, truncated))
      case Some(entries) =>
        match FirstPayload(entries, cfg.updatedPrefix, cfg.updatedSuffix)
        case None => Step(Some(NoPayloadEntry), Restore(cfg, env, truncated))
        case Some(k) =>
          var data := entries[k].data;
          if env.entryOpenFails then Step(Some(CannotOpenEntry), Restore(cfg, env, truncated))
          else
            match env.copyFailsAfter
            case Some(n) =>
              Step(Some(CopyFailed), Restore(cfg, env, truncated[app := data[..Min(n, |data|)]]))
            case None =>
              if env.closeFails then Step(Some(CloseFailed), Restore(cfg, env, truncated[app := data]))
              else Step(None, truncated[app := data])
  }

  /** The commands of a phase that runs only when the service is enabled. */
  function ServicePhase(cfg: Config, env: Env, cs: seq<seq<string>>): CommandRun {
    if cfg.service.enabled then RunCommands(env.systemctl, cs) else CommandRun([], None)
  }

  /** Steps updater.go:175-216, once the backup is written: stop, replace,
      start. Only the application file changes. */
  function Deploy(cfg: Config, env: Env, saved: Files, archiveBytes: seq<byte>): (r: Effect)
    requires BackupPath(cfg) in saved && cfg.applicationFileName in saved
    ensures r.requests == []
    ensures r.outcome.Failed? ==> !BeforeBackup(r.outcome.error)
    ensures cfg.applicationFileName in r.fs
    ensures r.fs == saved[cfg.applicationFileName := r.fs[cfg.applicationFileName]]
  {
    var stop := ServicePhase(cfg, env, StopCommands(cfg.service.name));
    if stop.failure.Some? then Effect(Failed(ServiceFailed(stop.failure.value)), saved, stop.issued, [])
    else
      var replaced := Replace(cfg, env, saved, env.unzip(archiveBytes));
      if replaced.failure.Some? then Effect(Failed(replaced.failure.value), replaced.fs, stop.issued, [])
      else
        var start := ServicePhase(cfg, env, StartCommands(cfg.service.name));
        var outcome := if start.failure.Some? then Failed(ServiceFailed(start.failure.value)) else Completed;
        Effect(outcome, replaced.fs, stop.issued + start.issued, [])
  }

  /** Steps updater.go:168-216, once the archive is in the temporary file:
      read the application, write the backup, then deploy. */
  function Install(cfg: Config, env: Env, fs: Files, archiveBytes: seq<byte>): (r: Effect)
    ensures r.requests == []
    ensures r.outcome.Failed? && BeforeBackup(r.outcome.error) ==> r.fs == fs && r.commands == []
    ensures r.outcome.Completed? || !BeforeBackup(r.outcome.error) ==>
              cfg.applicationFileName in fs && cfg.applicationFileName in r.fs &&
              r.fs == fs[BackupPath(cfg) := fs[cfg.applicationFileName]]
                        [cfg.applicationFileName := r.fs[cfg.applicationFileName]]
  {
    var app := cfg.applicationFileName;
    if app !in fs then Effect(Failed(CannotReadApplication), fs, [], [])
    else if env.backupWriteFails then Effect(Failed(CannotWriteBackup), fs, [], [])
    else Deploy(cfg, env, fs[BackupPath(cfg) := fs[app]], archiveBytes)
  }

  /** One whole attempt of `updateApplication` on the file system `fs`; the
      temporary archive is created, used and removed again. */
  function Attempt(cfg: Config, env: Env, fs: Files): (r: Effect)
    ensures 1 <= |r.requests| <= 3 && r.requests[0] == Request(cfg.artifactApi, true)
    ensures r.outcome.Completed? ==> |r.requests| == 3
    ensures r.outcome.Failed? && BeforeBackup(r.outcome.error) ==> r.commands == []
    ensures r.outcome.Failed? && !BeforeBackup(r.outcome.error) ==> |r.requests| == 3
  {
    var fetch := FetchPayload(cfg, env);
    match fetch.result
    case Err(e) => Effect(Failed(e), fs, [], fetch.requests)
    case Ok(body) =>
      if env.tempCreateFails then Effect(Failed(TempCreateFailed), fs, [], fetch.requests)
      else
        match body
        case None => Effect(Failed(DownloadFailed), fs, [], fetch.requests)
        case Some(payload) =>
          if env.tempCloseFails then Effect(Failed(TempCloseFailed), fs, [], fetch.requests)
          else
            var installed := Install(cfg, env, fs[env.tempName := payload], payload);
            installed.(fs := installed.fs - {env.tempName}, requests := fetch.requests)
  }

  /** What `os.CreateTemp` guarantees of the name it picks: a new file in the
      temporary directory, ending in ".zip", so neither the application nor
      its backup. */
  predicate FreshTemp(cfg: Config, env: Env, fs: Files) {
    env.tempName !in fs && env.tempName != cfg.applicationFileName && env.tempName != BackupPath(cfg)
  }

  /** The content a successful replacement installs from the archive bytes:
      the first payload entry, if the bytes are an archive that has one. */
  function ArchivePayload(cfg: Config, env: Env, archiveBytes: seq<byte>): Option<seq<byte>> {
    match env.unzip(archiveBytes)
    case Some(entries) =>
      (match FirstPayload(entries, cfg.updatedPrefix, cfg.updatedSuffix)
       case Some(k) => Some(entries[k].data)
       case None => None)
    case None => None
  }

  /** The content a successful attempt installs: the first payload entry of
      the downloaded archive, if the download and the archive are good. */
  function InstalledContent(cfg: Config, env: Env): Option<seq<byte>> {
    match FetchPayload(cfg, env).result
    case Ok(Some(payload)) => ArchivePayload(cfg, env, payload)
    case _ => None
  }

  /** The full command sequence of an attempt with an enabled service. */
  function ServiceCommands(cfg: Config): seq<seq<string>> {
    if cfg.service.enabled then StopCommands(cfg.service.name) + StartCommands(cfg.service.name) else []
  }

  /** The HTTP answer of the `/update` handler. */
  datatype Response = Response(status: int, body: string)

  /** The start of the panic text for a missing artifact (updater.go:142). */
  const NotFoundPrefix := "Can't find artifact with name "

  /** The start of the panic text for an unexpected status (updater.go:258). */
  const StatusPrefix := "Request [GET "

  /** A short text for each failure, standing for the panic value the handler
      prints after "ERROR: ". */
  function Describe(e: UpdateError): (text: string)
    ensures |text| > 0
    ensures e.ResolveFailed? && e.reason.NotFound? ==>
              NotFoundPrefix <= text && e.reason.name <= text[|NotFoundPrefix|..]
    ensures e.UnexpectedStatus? ==> StatusPrefix <= text && e.url <= text[|StatusPrefix|..]
  {
    match e
    case ResolveFailed(NotFound(name)) =>
      NotFoundPrefix + name + " or all artifacts expired"
    case NoPayloadEntry => "There is no jar files in artifact"
    case ServiceFailed(NonZeroExit(_, _)) => "systemctl finished with non-zero"
    case ServiceFailed(Unavailable(_)) => "failed to run systemctl"
    case UnexpectedStatus(url, _, _) => StatusPrefix + url + "] answer status error"
    case _ => "update failed"
  }

  /** The answer to a POST on `/update` after the attempt (updater.go:88-97). */
  function Respond(outcome: Outcome): (r: Response)
    ensures r.status == 200 <==> outcome.Completed?
    ensures outcome.Completed? ==> r.body == "OK\n"
    ensures outcome.Failed? ==> r.status == 500 && |r.body| > 8 && r.body[..7] == "ERROR: "
  {
    match outcome
    case Completed => Response(200, "OK\n")
    case Failed(e) => Response(500, "ERROR: " + Describe(e) + "\n")
  }

  /** The machine the updater runs on: its files, and the commands and
      requests issued so far. */
  class Host {
    var fs: Files
    var commands: seq<seq<string>>
    /** Every request attempted, in order, whether or not it was sent. */
    var requests: seq<Request>

    constructor (files: Files)
      ensures fs == files && commands == [] && requests == []
    {
      fs := files;
      commands := [];
      requests := [];
    }

    /** `doRequest` (updater.go:243-261). */
    method DoRequest<T>(url: string, apiHeaders: bool, expected: int, reply: Reply<T>)
      returns (r: Result<Option<T>, UpdateError>)
      modifies this`requests
      ensures requests == old(requests) + [Request(url, apiHeaders)]
      ensures r == Receive(url, expected, reply)
    {
      requests := requests + [Request(url, apiHeaders)];
      match reply
      case NoResponse =>
        r := Err(RequestFailed(url));
      case Reply(status, body) =>
        if status == expected {
          r := Ok(body);
        } else {
          r := Err(UnexpectedStatus(url, expected, status));
        }
    }

    /** `runSystemctlCommand` (updater.go:221-232). */
    method RunSystemctl(systemctl: Systemctl, args: seq<string>) returns (failure: Option<ServiceError>)
      modifies this`commands
      ensures commands == old(commands) + [args]
      ensures failure == Classify(args, systemctl(args))
    {
      commands := commands + [args];
      var status := systemctl(args);
      if status.NotLaunched? {
        failure := Some(Unavailable(args));
      } else if status.code != 0 {
        failure := Some(NonZeroExit(args, status.code));
      } else {
        failure := None;
      }
    }

    /** `restoreOldApplication` (updater.go:234-241). */
    method RestoreOldApplication(cfg: Config, env: Env)
      requires BackupPath(cfg) in fs
      modifies this`fs
      ensures fs == Restore(cfg, env, old(fs))
    {
      var oldApp := fs[BackupPath(cfg)];
      if env.restoreFails {
        return;
      }
      fs := fs[cfg.applicationFileName := oldApp];
    }

    /** Steps updater.go:110-155: the artifact list, the selection, the
        redirect and the payload request. */
    method FetchArtifact(cfg: Config, env: Env) returns (r: Result<Option<seq<byte>>, UpdateError>)
      modifies this`requests
      ensures var f := FetchPayload(cfg, env);
                r == f.result && requests == old(requests) + f.requests
    {
      var list := DoRequest(cfg.artifactApi, true, ListStatus, env.listReply);
      if list.Err? {
        return Err(list.error);
      }
      if list.value.None? {
        return Err(UnreadableArtifactList);
      }
      var chosen := ResolveArtifact(list.value.value, cfg.artifactName, env.parse);
      if chosen.Err? {
        return Err(ResolveFailed(chosen.error));
      }
      var redirect := DoRequest(chosen.value.archiveDownloadUrl, true, RedirectStatus, env.redirectReply);
      if redirect.Err? {
        return Err(redirect.error);
      }
      if redirect.value.None? {
        return Err(MissingLocation);
      }
      r := DoRequest(redirect.value.value, false, PayloadStatus, env.payloadReply);
    }

    /** Steps updater.go:181-206: truncate the application file, open the
        archive and copy the first matching entry over the application,
        restoring the backup on every failure. */
    method ReplaceApplication(cfg: Config, env: Env) returns (failure: Option<UpdateError>)
      requires BackupPath(cfg) in fs && cfg.applicationFileName in fs && env.tempName in fs
      requires env.tempName != cfg.applicationFileName
      modifies this`fs
      ensures var s := Replace(cfg, env, old(fs), env.unzip(old(fs)[env.tempName]));
                failure == s.failure && fs == s.fs
    {
      var app := cfg.applicationFileName;
      if env.openAppFails {
        RestoreOldApplication(cfg, env);
        return Some(CannotOpenApplication);
      }
      fs := fs[app := []];
      var archive := env.unzip(fs[env.tempName]);
      if archive.None? {
        RestoreOldApplication(cfg, env);
        return Some(CannotOpenArchive);
      }
      var entries := archive.value;
      ghost var truncated := fs;
      var found := false;
      for i := 0 to |entries|
        invariant !found && fs == truncated
        invariant forall j :: 0 <= j < i ==> !IsPayload(entries[j], cfg.updatedPrefix, cfg.updatedSuffix)
      {
        if HasPrefix(entries[i].name, cfg.updatedPrefix) && HasSuffix(entries[i].name, cfg.updatedSuffix) {
          found := true;
          assert FirstPayload(entries, cfg.updatedPrefix, cfg.updatedSuffix) == Some(i);
          if env.entryOpenFails {
            RestoreOldApplication(cfg, env);
            return Some(CannotOpenEntry);
          }
          var data := entries[i].data;
          if env.copyFailsAfter.Some? {
            fs := fs[app := data[..Min(env.copyFailsAfter.value, |data|)]];
            RestoreOldApplication(cfg, env);
            return Some(CopyFailed);
          }
          fs := fs[app := data];
          if env.closeFails {
            RestoreOldApplication(cfg, env);
            return Some(CloseFailed);
          }
          break;
        }
      }
      if !found {
        RestoreOldApplication(cfg, env);
        return Some(NoPayloadEntry);
      }
      failure := None;
    }

    /** Steps updater.go:208-216: the start sequence, each command ending the
        attempt on failure. */
    method StartApplication(cfg: Config, env: Env) returns (failure: Option<ServiceError>)
      modifies this`commands
      ensures var run := ServicePhase(cfg, env, StartCommands(cfg.service.name));
                failure == run.failure && commands == old(commands) + run.issued
    {
      if !cfg.service.enabled {
        return None;
      }
      var name := cfg.service.name;
      ghost var cs := StartCommands(name);
      ghost var s := env.systemctl;
      assert cs[1..] == [["start", name], ["enable", name], ["status", name]];
      assert cs[2..] == [["enable", name], ["status", name]];
      assert cs[3..] == [["status", name]];
      failure := RunSystemctl(env.systemctl, ["daemon-reload"]);
      if failure.Some? {
        return;
      }
      assert RunCommands(s, cs) == RunCommands(s, cs[1..]).(issued := [cs[0]] + RunCommands(s, cs[1..]).issued);
      failure := RunSystemctl(env.systemctl, ["start", name]);
      if failure.Some? {
        return;
      }
      assert cs[1..][1..] == cs[2..];
      assert RunCommands(s, cs[1..]) == RunCommands(s, cs[2..]).(issued := [cs[1]] + RunCommands(s, cs[2..]).issued);
      failure := RunSystemctl(env.systemctl, ["enable", name]);
      if failure.Some? {
        return;
      }
      assert cs[2..][1..] == cs[3..];
      assert RunCommands(s, cs[2..]) == RunCommands(s, cs[3..]).(issued := [cs[2]] + RunCommands(s, cs[3..]).issued);
      assert cs[3..][1..] == [];
      failure := RunSystemctl(env.systemctl, ["status", name]);
    }

    /** Steps updater.go:168-216, with the archive in the temporary file. */
    method InstallUpdate(cfg: Config, env: Env) returns (outcome: Outcome)
      requires env.tempName in fs
      requires env.tempName != cfg.applicationFileName && env.tempName != BackupPath(cfg)
      modifies this`fs, this`commands
      ensures var e := Install(cfg, env, old(fs), old(fs)[env.tempName]);
                outcome == e.outcome && fs == e.fs && commands == old(commands) + e.commands
    {
      var app := cfg.applicationFileName;
      if app !in fs {
        return Failed(CannotReadApplication);
      }
      var oldApp := fs[app];
      if env.backupWriteFails {
        return Failed(CannotWriteBackup);
      }
      fs := fs[BackupPath(cfg) := oldApp];
      if cfg.service.enabled {
        var stopped := RunSystemctl(env.systemctl, ["stop", cfg.service.name]);
        if stopped.Some? {
          return Failed(ServiceFailed(stopped.value));
        }
      }
      assert ServicePhase(cfg, env, StopCommands(cfg.service.name)) ==
        if cfg.service.enabled then CommandRun([["stop", cfg.service.name]], None) else CommandRun([], None);
      var failure := ReplaceApplication(cfg, env);
      if failure.Some? {
        return Failed(failure.value);
      }
      var started := StartApplication(cfg, env);
      if started.Some? {
        return Failed(ServiceFailed(started.value));
      }
      outcome := Completed;
    }

    /** `updateApplication` (updater.go:109-219). The temporary archive is
        removed on every exit after it was created, as the deferred
        `os.Remove` does. */
    method UpdateApplication(cfg: Config, env: Env) returns (outcome: Outcome)
      requires FreshTemp(cfg, env, fs)
      modifies this
      ensures var e := Attempt(cfg, env, old(fs));
                outcome == e.outcome && fs == e.fs &&
                commands == old(commands) + e.commands && requests == old(requests) + e.requests
    {
      var body := FetchArtifact(cfg, env);
      if body.Err? {
        return Failed(body.error);
      }
      if env.tempCreateFails {
        return Failed(TempCreateFailed);
      }
      var temp := env.tempName;
      ghost var before := fs;
      fs := fs[temp := []];
      if body.value.None? {
        fs := fs - {temp};
        assert fs == before;
        return Failed(DownloadFailed);
      }
      fs := fs[temp := body.value.value];
      if env.tempCloseFails {
        fs := fs - {temp};
        assert fs == before;
        return Failed(TempCloseFailed);
      }
      assert fs == before[temp := body.value.value];
      outcome := InstallUpdate(cfg, env);
      fs := fs - {temp};
    }

    /** The `/update` handler of updater.go:87-101: a POST runs one attempt
        and reports it; any other method is refused and changes nothing. */
    method HandleUpdate(httpMethod: string, cfg: Config, env: Env) returns (response: Response)
      requires httpMethod == "POST" ==> FreshTemp(cfg, env, fs)
      modifies this
      ensures httpMethod != "POST" ==>
                response == Response(405, "") && fs == old(fs) &&
                commands == old(commands) && requests == old(requests)
      ensures httpMethod == "POST" ==>
                var e := Attempt(cfg, env, old(fs));
                response == Respond(e.outcome) && fs == e.fs &&
                commands == old(commands) + e.commands && requests == old(requests) + e.requests
    {
      if httpMethod == "POST" {
        var outcome := UpdateApplication(cfg, env);
        response := Respond(outcome);
      } else {
        response := Response(405, "");
      }
    }
  }
}
