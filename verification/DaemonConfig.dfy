/** The configuration, its watchdog and the daemon that subscribes to it. */
module DaemonConfig {
  import opened Options
  import S = ConfigSpec
  import Tuner

  class Logger {
    var level: int

    constructor ()
    {
      level := 0;
    }

    method SetLogLevel(severity: int)
      modifies this
      ensures level == severity
    {
      level := severity;
    }
  }

  datatype LevelParse = Failed | Accepted | Threw

  class Config {
    const key: string
    var logLevel: int
    var crashpadConfig: S.CrashpadConfig

    ghost function View(): S.Config
      reads this
    {
      S.Config(logLevel, crashpadConfig)
    }

    constructor (configKey: string, defaultLevel: int)
      ensures key == configKey && View() == S.Config(defaultLevel, S.NO_CRASHPAD)
    {
      key, logLevel, crashpadConfig := configKey, defaultLevel, S.NO_CRASHPAD;
    }

    method ParseLogLevel(configJson: S.Json) returns (parse: LevelParse)
      modifies this`logLevel
      ensures parse.Threw? <==> S.Throws(S.Parsed(configJson), key)
      ensures parse.Accepted? <==> !parse.Threw? && S.LevelOf(configJson, key).Some?
      ensures logLevel == if parse.Accepted? then S.LevelOf(configJson, key).value else old(logLevel)
    {
      if !S.CanLookUp(configJson) {
        return Threw;
      }
      if !S.IsMember(configJson, key) {
        return Failed;
      }
      var jsonKeyValue := configJson.members[key];
      if !S.CanLookUp(jsonKeyValue) {
        return Threw;
      }
      if !S.IsMember(jsonKeyValue, S.LOG_LEVEL_KEY) {
        return Failed;
      }
      if !S.IsInt(jsonKeyValue.members[S.LOG_LEVEL_KEY]) {
        return Failed;
      }
      var levelValue := S.AsInt(jsonKeyValue.members[S.LOG_LEVEL_KEY]);
      if levelValue < S.MIN_LOG_LEVEL || levelValue > S.MAX_LOG_LEVEL {
        return Failed;
      }
      logLevel := levelValue;
      return Accepted;
    }

    method ParseCrashPadSettings(configJson: S.Json) returns (complete: bool)
      requires S.CanLookUp(configJson)
      modifies this`crashpadConfig
      ensures crashpadConfig == S.CommitCrashpad(old(crashpadConfig), S.CrashpadOf(configJson))
      ensures complete <==> S.CrashpadOf(configJson).uploadUrl.Some?
    {
      if !S.IsMember(configJson, S.CRASHPAD_KEY) {
        return false;
      }
      var crashpadJson := configJson.members[S.CRASHPAD_KEY];
      if !crashpadJson.JObject? {
        return false;
      }
      var pruneAge := S.IntMember(crashpadJson, S.PRUNE_AGE_KEY);
      if pruneAge.None? {
        return false;
      }
      crashpadConfig := crashpadConfig.(pruneAge := pruneAge);
      var pruneDbSize := S.IntMember(crashpadJson, S.PRUNE_DB_SIZE_KEY);
      if pruneDbSize.None? {
        return false;
      }
      crashpadConfig := crashpadConfig.(pruneDbSize := pruneDbSize);
      var uploadUrl := S.StringMember(crashpadJson, S.UPLOAD_URL_KEY);
      if uploadUrl.None? {
        return false;
      }
      crashpadConfig := crashpadConfig.(uploadUrl := uploadUrl);
      return true;
    }

    method Reload(file: S.File) returns (loaded: bool, threw: bool)
      modifies this
      ensures View() == S.Apply(old(View()), S.CommitOf(file, key))
      ensures threw <==> S.Throws(file, key)
      ensures loaded <==> file.Parsed? && !threw
    {
      if file.Missing? || file.NotRegular? || file.NotOpened? || file.NotParsed? {
        return false, false;
      }
      var parse := ParseLogLevel(file.json);
      if parse.Threw? {
        return false, true;
      }
      var _ := ParseCrashPadSettings(file.json);
      return true, false;
    }

    method OnConfigChanged(file: S.File, logger: Logger) returns (threw: bool)
      modifies this, logger
      ensures threw <==> S.Throws(file, key)
      ensures View() == S.Apply(old(View()), S.CommitOf(file, key))
      ensures logger.level == if file.Parsed? && !threw then logLevel else old(logger.level)
    {
      var loaded;
      loaded, threw := Reload(file);
      if loaded {
        logger.SetLogLevel(logLevel);
      }
    }
  }

  /** An empty std::function is not added. */
  class ConfigWatchdog {
    var subscribers: seq<S.Subscriber>

    constructor ()
      ensures subscribers == []
    {
      subscribers := [];
    }

    method AddSubscriber(subscriber: Option<S.Subscriber>)
      modifies this
      ensures subscribers == old(subscribers) + if subscriber.Some? then [subscriber.value] else []
    {
      if subscriber.Some? {
        subscribers := subscribers + [subscriber.value];
      }
    }
  }

  class Daemon {
    const config: Config
    const logger: Logger
    const tuner: Tuner.CrashpadTuner
    const watchdog: ConfigWatchdog

    ghost function View(): S.Daemon
      reads this, config, logger, tuner
    {
      S.Daemon(config.View(), logger.level, tuner.View())
    }

    ghost predicate Valid()
      reads this, config, logger, tuner, watchdog
    {
      S.Possible(View()) && watchdog.subscribers == S.SUBSCRIBERS
    }

    /** What follows the reading of the configuration: it is applied, then the two subscribers are added. */
    constructor (readConfig: Config, log: Logger, crashpadTuner: Tuner.CrashpadTuner)
      requires S.InRange(readConfig.crashpadConfig)
      requires S.MIN_LOG_LEVEL <= readConfig.logLevel <= S.MAX_LOG_LEVEL
      modifies log, crashpadTuner
      ensures config == readConfig && logger == log && tuner == crashpadTuner && fresh(watchdog)
      ensures Valid()
      ensures View() == S.Daemon(old(readConfig.View()), old(readConfig.logLevel),
                                 S.ApplyCrashpad(old(crashpadTuner.View()), old(readConfig.crashpadConfig)))
    {
      config := readConfig;
      watchdog := new ConfigWatchdog();
      logger, tuner := log, crashpadTuner;
      new;
      ApplyLoggerSettings();
      ApplyCrashpadSettings();
      watchdog.AddSubscriber(Some(S.ReloadConfig));
      watchdog.AddSubscriber(Some(S.DaemonCallback));
    }

    /** The daemon of a file; there is none when reading the configuration throws, and then nothing has
        changed. */
    static method Create(configKey: string, defaultLevel: int, file: S.File, log: Logger,
                         crashpadTuner: Tuner.CrashpadTuner)
      returns (daemon: Daemon?)
      requires S.MIN_LOG_LEVEL <= defaultLevel <= S.MAX_LOG_LEVEL
      modifies log, crashpadTuner
      ensures daemon == null <==> S.Throws(file, configKey)
      ensures daemon == null ==> log.level == old(log.level) && crashpadTuner.View() == old(crashpadTuner.View())
      ensures daemon != null ==>
        && fresh(daemon) && daemon.logger == log && daemon.tuner == crashpadTuner && daemon.config.key == configKey
        && fresh(daemon.config) && fresh(daemon.watchdog)
        && daemon.Valid()
        && daemon.View() == S.Started(defaultLevel, old(crashpadTuner.View()), file, configKey)
    {
      S.CommitsInRange(file, configKey);
      S.StartedIsPossible(defaultLevel, crashpadTuner.View(), file, configKey);
      var config := new Config(configKey, defaultLevel);
      var threw := config.OnConfigChanged(file, log);
      if threw {
        return null;
      }
      daemon := new Daemon(config, log, crashpadTuner);
    }

    method ApplyLoggerSettings()
      modifies logger
      ensures logger.level == config.logLevel
    {
      logger.SetLogLevel(config.logLevel);
    }

    method ApplyCrashpadSettings()
      requires S.InRange(config.crashpadConfig)
      modifies tuner
      ensures tuner.View() == S.ApplyCrashpad(old(tuner.View()), config.crashpadConfig)
    {
      var crashpadConfig := config.crashpadConfig;
      if crashpadConfig.pruneAge.Some? {
        tuner.SetPruneAge(S.ToUInt32(crashpadConfig.pruneAge.value));
      }
      if crashpadConfig.pruneDbSize.Some? {
        tuner.SetPruneDatabaseSize(S.ToSize(crashpadConfig.pruneDbSize.value));
      }
      if crashpadConfig.uploadUrl.Some? {
        tuner.SetUploadUrl(crashpadConfig.uploadUrl.value);
      }
    }

    method ConfigCallback()
      requires S.InRange(config.crashpadConfig)
      modifies logger, tuner
      ensures View() == S.CalledBack(old(View()))
    {
      ApplyLoggerSettings();
      ApplyCrashpadSettings();
    }

    /** The watchdog's loop over its subscribers, when the file has become `file`. */
    method NotifySubscribers(file: S.File)
      requires Valid()
      modifies config, logger, tuner
      ensures View() == S.Notified(old(View()), watchdog.subscribers, file, config.key)
      ensures Valid()
    {
      var remaining := watchdog.subscribers;
      S.HandleKeepsLevel(View(), S.FileChanged(file), config.key);
      while remaining != []
        invariant S.InRange(config.crashpadConfig) && watchdog.subscribers == S.SUBSCRIBERS
        invariant S.Notified(old(View()), watchdog.subscribers, file, config.key)
               == S.Notified(View(), remaining, file, config.key)
        decreases |remaining|
      {
        S.CommitsInRange(file, config.key);
        match remaining[0] {
          case ReloadConfig =>
            var threw := config.OnConfigChanged(file, logger);
            if threw {
              return;
            }
          case DaemonCallback => ConfigCallback();
        }
        remaining := remaining[1..];
      }
    }
  }
}
