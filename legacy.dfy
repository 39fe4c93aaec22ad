/**
  The state index.js keeps in module-level variables (`config`,
  `logCounters`) as one object, and its `messages.upsert` handler as
  methods that update it in place, each proved to do what the function of
  the same step in LegacySpec says.
*/
module Legacy {

  import opened Wrappers
  import opened JsText
  import opened Messages
  import opened Helpers
  import opened LegacySpec

  class LegacyLogger {
    var config: Config
    var counters: map<string, int>
    var order: seq<string>

    function Snapshot(): LegacyState
      reads this
    {
      LegacyState(config, counters, order)
    }

    ghost predicate Valid()
      reads this
    {
      ValidLegacy(Snapshot())
    }

    /** Process start: readConfig and empty counters. */
    constructor (loaded: Option<Config>)
      ensures Valid()
      ensures Snapshot() == LegacyStartup(loaded)
    {
      config := ReadConfig(loaded);
      counters := map[];
      order := [];
    }

    /** The `connection === 'open'` branch: `config = readConfig()`. */
    method OnConnectionOpen(loaded: Option<Config>)
      requires Valid()
      modifies this
      ensures Valid()
      ensures Snapshot() == LegacyConnectionOpen(old(Snapshot()), loaded)
    {
      config := ReadConfig(loaded);
    }

    /** `logCounters[key] = (logCounters[key] || 0) + 1`. */
    method BumpCounter(key: string)
      modifies this
      ensures Snapshot() == LegacyBump(old(Snapshot()), key)
    {
      if key !in counters {
        order := order + [key];
      }
      counters := counters[key := CountOf(counters, key) + 1];
    }

    /** `!setgroupbackup`; the caller stops after it. */
    method HandleBackupCommand(ctx: Context) returns (effects: seq<Effect>)
      modifies this
      ensures LegacyStep(Snapshot(), effects) == BackupCommand(old(Snapshot()), ctx)
    {
      if ctx.isGroup {
        config := config.(backupGroup := Some(ctx.remote));
        effects := [PersistConfig, Send(ctx.remote, Reply(BackupSet))];
      } else {
        effects := [Send(ctx.remote, Reply(UseInsideGroup))];
      }
    }

    method AppendText(ctx: Context, env: Env) returns (effects: seq<Effect>)
      modifies this
      ensures LegacyStep(Snapshot(), effects) == LegacyLogText(old(Snapshot()), ctx, env)
    {
      effects := [];
      if ctx.text != "" {
        var key := ChatKey(ctx);
        BumpCounter(key);
        effects := [AppendLog(LogFile(if ctx.isGroup then Group else User, Sanitize(key) + ".txt"),
                              TextLine(env.time, ctx.pushName, ctx.participant, ctx.text))];
      }
    }

    /** A status image or video; it changes no state. */
    method ArchiveStatus(b: Body, ctx: Context, env: Env) returns (effects: seq<Effect>)
      ensures LegacyStep(Snapshot(), effects) == LegacyStatusMedia(Snapshot(), b, ctx, env)
    {
      effects := [];
      if b.download.Some? {
        var data := b.download.value;
        var path := LegacyStatusFile(b, ctx, env);
        var saved := Saved(env, path);
        effects := SaveEffects(saved, data) + [LegacyStatusLog(ctx, env, saved)];
        if Present(config.backupGroup) && saved.Some? {
          effects := effects + [Send(config.backupGroup.value, MediaDocument(path.name, MimeOf(b.mimetype), data))];
        }
      }
    }

    /** A regular media item: save, log, forward, then count. */
    method ArchiveMedia(b: Body, ctx: Context, env: Env) returns (effects: seq<Effect>)
      requires IsMediaType(b.contentType)
      modifies this
      ensures LegacyStep(Snapshot(), effects) == LegacyRegularMedia(old(Snapshot()), b, ctx, env)
    {
      effects := [];
      if b.download.Some? {
        var data := b.download.value;
        var path := LegacyMediaFile(b, ctx, env);
        var saved := Saved(env, path);
        effects := SaveEffects(saved, data) + [LegacyMediaLog(b, ctx, env, saved)];
        var counted := true;
        if Present(config.backupGroup) {
          if saved.Some? {
            effects := effects + [Send(config.backupGroup.value, MediaDocument(path.name, MimeOf(b.mimetype), data))];
          } else {
            counted := false;
          }
        }
        if counted {
          BumpCounter(ChatKey(ctx));
        }
      }
    }

    /** One counter of the sweep, against the threshold computed before the loop. */
    method SweepCounter(key: string, threshold: int, env: Env) returns (effects: seq<Effect>)
      requires threshold == Threshold(config)
      modifies this
      ensures LegacyStep(Snapshot(), effects) == LegacySweepKey(old(Snapshot()), key, env)
    {
      effects := [];
      if key in counters && counters[key] >= threshold {
        var file := SweepFile(key);
        if file in env.logFiles && Present(config.backupGroup) {
          effects := [Send(config.backupGroup.value, LogDocument(file))];
        }
        counters := counters[key := 0];
      }
    }

    /** The threshold sweep: a loop over a snapshot of the counter keys. */
    method SweepLogs(env: Env) returns (effects: seq<Effect>)
      modifies this
      ensures LegacyStep(Snapshot(), effects) == LegacySweep(old(Snapshot()), old(order), env)
    {
      var keys := order;
      var threshold := Threshold(config);
      effects := [];
      var i := 0;
      while i < |keys|
        invariant 0 <= i <= |keys|
        invariant config == old(config)
        invariant LegacyStep(Snapshot(), effects) == LegacySweep(old(Snapshot()), keys[..i], env)
      {
        var sent := SweepCounter(keys[i], threshold, env);
        effects := effects + sent;
        assert keys[..i + 1][..i] == keys[..i];
        i := i + 1;
      }
      assert keys[..|keys|] == keys;
    }

    /** One message of the batch. */
    method HandleMessage(m: Message, env: Env) returns (effects: seq<Effect>)
      requires Valid()
      modifies this
      ensures Valid()
      ensures LegacyStep(Snapshot(), effects) == LegacyProcess(old(Snapshot()), m, env)
    {
      if m.body.None? {
        return [];
      }
      var b := m.body.value;
      var ctx := ContextOf(m, b);
      if IsBackupCommandText(ctx.text) {
        effects := HandleBackupCommand(ctx);
        return;
      }
      ghost var s0 := Snapshot();
      assert LegacyProcess(s0, m, env) == LegacyArchive(s0, b, ctx, env);
      effects := AppendText(ctx, env);
      ghost var t := LegacyLogText(s0, ctx, env);
      if IsStatusMedia(ctx, b) {
        var archived := ArchiveStatus(b, ctx, env);
        effects := effects + archived;
        return;
      }
      if IsMediaType(b.contentType) {
        var archived := ArchiveMedia(b, ctx, env);
        effects := effects + archived;
      }
      ghost var pre := LegacyBeforeSweep(s0, b, ctx, env);
      assert Snapshot() == pre.state && effects == pre.effects;
      var swept := SweepLogs(env);
      effects := effects + swept;
    }

    /** `for (const msg of messages)`. */
    method HandleUpsert(ms: seq<Message>, envs: seq<Env>) returns (effects: seq<Effect>)
      requires |ms| == |envs|
      requires Valid()
      modifies this
      ensures Valid()
      ensures LegacyStep(Snapshot(), effects) == LegacyProcessAll(old(Snapshot()), ms, envs)
    {
      effects := [];
      var i := 0;
      while i < |ms|
        invariant 0 <= i <= |ms|
        invariant Valid()
        invariant LegacyStep(Snapshot(), effects) == LegacyProcessAll(old(Snapshot()), ms[..i], envs[..i])
      {
        var e := HandleMessage(ms[i], envs[i]);
        effects := effects + e;
        assert ms[..i + 1][..i] == ms[..i];
        assert envs[..i + 1][..i] == envs[..i];
        i := i + 1;
      }
      assert ms[..|ms|] == ms;
      assert envs[..|envs|] == envs;
    }
  }
}
