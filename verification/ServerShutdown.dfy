/** Setting up and ending file persistence, on the Server's own fields (internal/server/server.go,
    internal/server/persistence.go). ServerLifecycle adds the requests and the ticker that run meanwhile. */
module ServerShutdown {
  import opened Options
  import opened MetricStore
  import opened Persistence

  /** The field shutdownPersistence holds a function: one that does nothing, one that saves, or nil. */
  datatype Shutdown = NoFile | SaveTo(store: FileStore) | Nil

  datatype SetupError = LoadFailed(cause: FileError) | NegativeInterval

  /** What New does: give back a Server, report an error, or panic. */
  datatype Created = Ready(server: Server) | Failed | Panicked

  datatype RunError = ServeHTTP | ServeGRPC | Persistence(cause: FileError)

  datatype Config = Config(store: Option<FileStore>, restore: bool, storeInterval: int)

  /** There is a file to restore, and it cannot be read or is no list. */
  ghost predicate RestoreFails(cfg: Config, loadFails: bool)
    reads if cfg.store.Some? then {cfg.store.value} else {}
  {
    && cfg.store.Some? && cfg.restore
    && !cfg.store.value.file.Missing? && (loadFails || cfg.store.value.file.Garbled?)
  }

  /** Why setupFilePersistence would fail. */
  ghost predicate SetupFails(cfg: Config, loadFails: bool)
    reads if cfg.store.Some? then {cfg.store.value} else {}
  {
    RestoreFails(cfg, loadFails) || (cfg.store.Some? && cfg.storeInterval < 0)
  }

  /** What the metrics are once the Server is set up: those of the file too, if there is one to restore. */
  ghost function Restored(cfg: Config, was: Store): Store
    reads if cfg.store.Some? then {cfg.store.value} else {}
  {
    if cfg.store.Some? && cfg.restore then Loaded(was, cfg.store.value.file) else was
  }

  /** Where updates are saved to at once: the file, exactly for interval 0. */
  ghost function Syncing(cfg: Config, was: FileStore?): FileStore? {
    if cfg.store.Some? && cfg.storeInterval == 0 then cfg.store.value else was
  }

  /** shutdown is nil after an error. */
  method SetupFilePersistence(cfg: Config, service: MetricsService, loadFails: bool)
    returns (shutdown: Shutdown, periodic: bool, err: Option<SetupError>)
    modifies service, service.repo
    ensures err.Some? <==> SetupFails(cfg, loadFails)
    ensures err.Some? ==>
              err.value == if RestoreFails(cfg, loadFails) then LoadFailed(if loadFails then ReadFailed else NotJson)
                           else NegativeInterval
    ensures err.Some? <==> shutdown.Nil?
    ensures err.None? ==> shutdown == if cfg.store.Some? then SaveTo(cfg.store.value) else NoFile
    ensures err.None? ==>
              && periodic == (cfg.store.Some? && cfg.storeInterval > 0)
              && service.syncPersistence == Syncing(cfg, old(service.syncPersistence))
              && service.repo.Contents() == Restored(cfg, old(service.repo.Contents()))
    ensures cfg.store.None? || !cfg.restore ==> service.repo.Contents() == old(service.repo.Contents())
  {
    periodic := false;
    if cfg.store.None? {
      return NoFile, periodic, None;
    }
    var store := cfg.store.value;
    if cfg.restore {
      var loadErr := store.Load(service.repo, loadFails);
      if loadErr.Some? {
        return Nil, periodic, Some(LoadFailed(loadErr.value));
      }
    }
    if cfg.storeInterval == 0 {
      service.EnableSyncSave(store);
    } else if cfg.storeInterval > 0 {
      periodic := true;
    } else {
      return Nil, periodic, Some(NegativeInterval);
    }
    return SaveTo(store), periodic, None;
  }

  class Server {
    const service: MetricsService
    var shutdownPersistence: Shutdown
    var periodicRuns: bool
    var persistenceDone: bool  // persistenceOnce
    var persistenceErr: Option<FileError>
    var closed: bool           // closeOnce
    ghost var saves: nat       // saves tried by the shutdown function

    ghost predicate Valid()
      reads this
    {
      && (persistenceDone ==> !periodicRuns)
      && (!persistenceDone || shutdownPersistence.NoFile? ==> persistenceErr.None?)
      && saves == (if persistenceDone && shutdownPersistence.SaveTo? then 1 else 0)
    }

    constructor (service: MetricsService)
      ensures Valid() && this.service == service && shutdownPersistence == NoFile
      ensures !persistenceDone && !closed && !periodicRuns
    {
      this.service, shutdownPersistence := service, NoFile;
      periodicRuns, persistenceDone, persistenceErr, closed, saves := false, false, None, false, 0;
    }

    /** The files this Server may write. */
    ghost function Files(): set<object>
      reads this
    {
      if shutdownPersistence.SaveTo? then {shutdownPersistence.store} else {}
    }

    /** The first call saves, unless there is no file; later ones repeat its answer and touch nothing.
        Calling it with a nil function panics. */
    method StopPersistence(fault: DiskFault) returns (err: Option<FileError>)
      requires Valid() && !shutdownPersistence.Nil?
      modifies this, Files()
      ensures Valid() && persistenceDone && err == persistenceErr
      ensures shutdownPersistence == old(shutdownPersistence) && closed == old(closed)
      ensures Stopped(old(persistenceDone), old(persistenceErr), old(File()), fault)
    {
      if !persistenceDone {
        persistenceErr := None;
        if shutdownPersistence.SaveTo? {
          periodicRuns := false;
          persistenceErr := shutdownPersistence.store.Save(service.repo, fault);
          saves := saves + 1;
          if persistenceErr.None? {
            RoundTrip(service.repo.Contents(), shutdownPersistence.store.file.metrics);
          }
        }
        persistenceDone, periodicRuns := true, false;
      }
      return persistenceErr;
    }

    /** The file as it is, for talking about it when there is none. */
    ghost function File(): File
      reads this, Files()
    {
      if shutdownPersistence.SaveTo? then shutdownPersistence.store.file else Missing
    }

    /** What has become of the error and the file: nothing new if persistence had been stopped before;
        otherwise one save, and a file that loads back to the memory if it worked. */
    ghost predicate Stopped(wasDone: bool, wasErr: Option<FileError>, was: File, fault: DiskFault)
      reads this, Files(), service, service.repo
    {
      if wasDone then persistenceErr == wasErr && File() == was
      else if shutdownPersistence.SaveTo? then
        && persistenceErr == (if SaveWorks(service.repo.Contents(), fault) then None
                              else Some(SaveError(service.repo.Contents())))
        && FileAfter(was, File(), service.repo.Contents(), fault)
        && (persistenceErr.None? ==> Loaded(EMPTY, File()) == service.repo.Contents())
      else persistenceErr.None?
    }

    /** The end of Run, once both transports are down, each with its own error or none: the save happens
        whatever serving came to, and the errors are joined. After a Close it only repeats the save's error. */
    method Run(http: bool, grpc: bool, fault: DiskFault) returns (errs: set<RunError>)
      requires Valid() && !shutdownPersistence.Nil?
      modifies this, Files()
      ensures Valid() && persistenceDone && shutdownPersistence == old(shutdownPersistence) && closed == old(closed)
      ensures Stopped(old(persistenceDone), old(persistenceErr), old(File()), fault)
      ensures ServeHTTP in errs <==> http
      ensures ServeGRPC in errs <==> grpc
      ensures forall e :: Persistence(e) in errs <==> persistenceErr == Some(e)
    {
      var err := StopPersistence(fault);
      errs := {};
      if http {
        errs := errs + {ServeHTTP};
      }
      if grpc {
        errs := errs + {ServeGRPC};
      }
      if err.Some? {
        errs := errs + {Persistence(err.value)};
      }
    }

    method Close(fault: DiskFault)
      requires Valid() && (closed || !shutdownPersistence.Nil?)
      modifies this, Files()
      ensures Valid() && closed && shutdownPersistence == old(shutdownPersistence)
      ensures if old(closed)
              then persistenceDone == old(persistenceDone) && persistenceErr == old(persistenceErr) && File() == old(File())
              else persistenceDone && Stopped(old(persistenceDone), old(persistenceErr), old(File()), fault)
    {
      if !closed {
        var err := StopPersistence(fault);
        closed := true;
      }
    }
  }

  /** earlierFails: a stage before the persistence failed; the Server is then closed with the function
      it was made with. When the persistence itself fails, Close meets the nil function: New panics. */
  method New(cfg: Config, service: MetricsService, earlierFails: bool, loadFails: bool) returns (created: Created)
    modifies service, service.repo
    ensures created.Panicked? <==> !earlierFails && SetupFails(cfg, loadFails)
    ensures created.Failed? <==> earlierFails
    ensures created.Ready? ==>
              var s := created.server;
              && fresh(s) && s.Valid() && s.service == service && !s.persistenceDone && !s.closed
              && s.shutdownPersistence == (if cfg.store.Some? then SaveTo(cfg.store.value) else NoFile)
              && s.periodicRuns == (cfg.store.Some? && cfg.storeInterval > 0)
              && service.syncPersistence == Syncing(cfg, old(service.syncPersistence))
              && service.repo.Contents() == Restored(cfg, old(service.repo.Contents()))
    ensures created.Failed? ==>
              && service.syncPersistence == old(service.syncPersistence)
              && service.repo.Contents() == old(service.repo.Contents())
    ensures cfg.store.Some? ==> cfg.store.value.file == old(cfg.store.value.file)
  {
    var srv := new Server(service);
    if earlierFails {
      srv.Close(NoFault);
      return Failed;
    }
    var shutdown, periodic, err := SetupFilePersistence(cfg, service, loadFails);
    srv.shutdownPersistence := shutdown;
    srv.periodicRuns := periodic;
    if err.Some? {
      assert srv.shutdownPersistence.Nil? && !srv.closed;
      return Panicked;
    }
    return Ready(srv);
  }

  /** A configuration that passes validation and still makes New panic: restoring from a file that is not
      a list of metrics, such as one a full disk cut short. */
  method NewOnGarbledFile() returns (created: Created)
    ensures created.Panicked?
  {
    var repo := new InMemory.MemStorage();
    var service := new MetricsService(repo);
    var store := new FileStore(Garbled);
    created := New(Config(Some(store), true, 300), service, false, false);
  }

  /** cmd/server: Run, then the deferred Close. One save is tried; Close leaves the file as Run left it. */
  method RunThenClose(s: Server, http: bool, grpc: bool, fault: DiskFault, later: DiskFault) returns (errs: set<RunError>)
    requires s.Valid() && !s.persistenceDone && !s.closed && !s.shutdownPersistence.Nil?
    modifies s, s.Files()
    ensures s.Valid() && s.closed && s.shutdownPersistence == old(s.shutdownPersistence)
    ensures s.saves == if s.shutdownPersistence.SaveTo? then 1 else 0
    ensures s.Stopped(false, None, old(s.File()), fault)
    ensures errs == {} <==> !http && !grpc && (s.shutdownPersistence.SaveTo? ==> SaveWorks(s.service.repo.Contents(), fault))
  {
    errs := s.Run(http, grpc, fault);
    if s.persistenceErr.Some? {
      assert Persistence(s.persistenceErr.value) in errs;
    }
    forall e | e in errs ensures http || grpc || s.persistenceErr.Some? {
      match e
      case ServeHTTP =>
      case ServeGRPC =>
      case Persistence(cause) => assert s.persistenceErr == Some(cause);
    }
    s.Close(later);
  }

  /** One life of the Server and the start of the next, on the file the first one leaves. Without an error the new
      Server has the metrics of the old one. A list that was cut short makes New panic. */
  method Restart(s: Server, http: bool, grpc: bool, fault: DiskFault, later: DiskFault, storeInterval: nat)
    returns (errs: set<RunError>, created: Created)
    requires s.Valid() && !s.persistenceDone && !s.closed && s.shutdownPersistence.SaveTo?
    modifies s, s.Files()
    ensures s.service.repo.Contents() == old(s.service.repo.Contents())
    ensures errs == {} ==> created.Ready? && created.server.service.repo.Contents() == s.service.repo.Contents()
    ensures created.Panicked?
       <==> if Encodable(s.service.repo.Contents()) && !fault.OpenFails? then fault == CutShort(Part)
            else old(s.shutdownPersistence.store.file).Garbled?
    ensures !created.Failed?
  {
    var store := s.shutdownPersistence.store;
    errs := RunThenClose(s, http, grpc, fault, later);
    var repo := new InMemory.MemStorage();
    var service := new MetricsService(repo);
    created := New(Config(Some(store), true, storeInterval), service, false, false);
  }
}
