/**
  The state index.mjs keeps in module-level variables (`config`,
  `forwardedDB`, `logCounters`, `BOT_ID`) as one object, and the
  `messages.upsert` handler as methods that update it in place. Each method
  is proved to do what the function of the same step in IngestSpec says.
*/
module Ingest {

  import opened Wrappers
  import opened JsText
  import opened Messages
  import opened Helpers
  import opened IngestSpec

  class Logger {
    var config: Config
    var ledger: seq<string>
    var counters: map<string, int>
    var order: seq<string>
    var botId: Option<string>

    function Snapshot(): State
      reads this
    {
      State(config, ledger, counters, order, botId)
    }

    ghost predicate Valid()
      reads this
    {
      ValidState(Snapshot())
    }

    /** Process start: readConfig, loadForwarded, empty counters, unknown bot id. */
    constructor (loadedConfig: Option<Config>, loadedLedger: Option<seq<string>>)
      ensures Valid()
      ensures Snapshot() == Startup(loadedConfig, loadedLedger)
    {
      config := ReadConfig(loadedConfig);
      ledger := LoadLedger(loadedLedger);
      counters := map[];
      order := [];
      botId := None;
    }

    /** The `connection === 'open'` branch: reload the config, learn the bot id, default the owner. */
    method OnConnectionOpen(loaded: Option<Config>, sockBotId: Option<string>) returns (effects: seq<Effect>)
      requires Valid()
      modifies this
      ensures Valid()
      ensures Step(Snapshot(), effects) == ConnectionOpen(old(Snapshot()), loaded, sockBotId)
    {
      config := ReadConfig(loaded);
      botId := sockBotId;
      effects := [];
      if Present(botId) && !Present(config.owner) {
        config := config.(owner := botId);
        effects := [PersistConfig];
      }
    }

    /** `logCounters[key] = (logCounters[key] || 0) + 1`. */
    method BumpCounter(key: string)
      modifies this
      ensures Snapshot() == BumpKey(old(Snapshot()), key)
    {
      if key !in counters {
        order := order + [key];
      }
      counters := counters[key := CountOf(counters, key) + 1];
    }

    /** The command branch; the caller stops after it. */
    method HandleCommand(name: string, ctx: Context, env: Env) returns (effects: seq<Effect>)
      modifies this
      ensures Step(Snapshot(), effects) == Command(old(Snapshot()), name, ctx, env)
    {
      if name == "setgroupbackup" {
        if ctx.isGroup {
          config := config.(backupGroup := Some(ctx.remote));
          effects := [PersistConfig, Send(ctx.remote, Reply(BackupSet))];
        } else {
          effects := [Send(ctx.remote, Reply(UseInsideGroup))];
        }
      } else if name == "setowner" {
        if !Present(botId) {
          botId := env.sockBotId;
        }
        if !Present(botId) {
          effects := [Send(ctx.remote, Reply(NoBotId))];
        } else {
          config := config.(owner := botId);
          effects := [PersistConfig, Send(ctx.remote, Reply(OwnerSet(botId.value)))];
        }
      } else if name == "menu" {
        effects := [Send(ctx.remote, Reply(Menu(OrElse(config.backupGroup, "not set"))))];
      } else if name == "ping" {
        effects := [Send(ctx.remote, Reply(PingReport))];
      } else {
        effects := [];
      }
    }

    /** Text logging: one log line and one counter increment for non-empty text. */
    method AppendText(ctx: Context, env: Env) returns (effects: seq<Effect>)
      modifies this
      ensures Step(Snapshot(), effects) == LogText(old(Snapshot()), ctx, env)
    {
      effects := [];
      if ctx.text != "" {
        var key := ChatKey(ctx);
        BumpCounter(key);
        var category := if ctx.isGroup then Group else User;
        effects := [AppendLog(LogFile(category, SafeId(key) + ".txt"),
                              TextLine(env.time, ctx.pushName, ctx.participant, ctx.text))];
      }
    }

    /**
      A status image or video. The source throws when it builds the forward
      of an item whose write failed; here that is the `saved.Some?` test.
    */
    method ArchiveStatus(b: Body, ctx: Context, env: Env) returns (effects: seq<Effect>)
      modifies this
      ensures Step(Snapshot(), effects) == StatusMedia(old(Snapshot()), b, ctx, env)
    {
      effects := [];
      if b.download.Some? {
        var data := b.download.value;
        var path := StatusFile(b, ctx, env);
        var saved := Saved(env, path);
        effects := SaveEffects(saved, data) + [StatusLog(ctx, env, saved)];
        if Present(config.backupGroup) {
          var mid := ctx.id;
          if mid.Some? && mid.value !in ledger && ForwardAllowed(config, botId, ctx.participant) && saved.Some? {
            effects := effects + [Send(config.backupGroup.value, MediaDocument(path.name, MimeOf(b.mimetype), data)), PersistLedger];
            ledger := ledger + [mid.value];
          }
        }
      }
    }

    /** A regular media item: save, log, forward through the ledger, then count. */
    method ArchiveMedia(b: Body, ctx: Context, env: Env) returns (effects: seq<Effect>)
      requires IsMediaType(b.contentType)
      modifies this
      ensures Step(Snapshot(), effects) == RegularMedia(old(Snapshot()), b, ctx, env)
    {
      effects := [];
      if b.download.Some? {
        var data := b.download.value;
        var path := MediaFile(b, ctx, env);
        var saved := Saved(env, path);
        effects := SaveEffects(saved, data) + [MediaLog(b, ctx, env, saved)];
        var counted := true;
        if Present(config.backupGroup) {
          var mid := ctx.id;
          if mid.Some? && mid.value !in ledger && ForwardAllowed(config, botId, ctx.participant) {
            if saved.Some? {
              effects := effects + [Send(config.backupGroup.value, MediaDocument(path.name, MimeOf(b.mimetype), data)),
                                    PersistLedger];
              ledger := ledger + [mid.value];
            } else {
              counted := false;
            }
          }
        }
        if counted {
          BumpCounter(ChatKey(ctx));
        }
      }
    }

    /** One counter of the sweep, against the threshold computed before the loop. */
    method SweepCounter(key: string, threshold: int, env: Env) returns (effects: seq<Effect>)
      requires threshold == Threshold(config)
      modifies this
      ensures Step(Snapshot(), effects) == SweepKey(old(Snapshot()), key, env)
    {
      effects := [];
      if key in counters && counters[key] >= threshold {
        var file := SweepFile(key);
        if file in env.logFiles && Present(config.backupGroup) {
          var marker := Marker(file, env.logFiles[file]);
          if marker !in ledger && LogBatchAllowed(config, botId) {
            effects := [Send(config.backupGroup.value, LogDocument(file)), PersistLedger];
            ledger := ledger + [marker];
          }
        }
        counters := counters[key := 0];
      }
    }

    /** The threshold sweep: a loop over a snapshot of the counter keys. */
    method SweepLogs(env: Env) returns (effects: seq<Effect>)
      modifies this
      ensures Step(Snapshot(), effects) == Sweep(old(Snapshot()), old(order), env)
    {
      var keys := order;
      var threshold := Threshold(config);
      effects := [];
      var i := 0;
      while i < |keys|
        invariant 0 <= i <= |keys|
        invariant config == old(config)
        invariant Step(Snapshot(), effects) == Sweep(old(Snapshot()), keys[..i], env)
      {
        var sent := SweepCounter(keys[i], threshold, env);
        effects := effects + sent;
        assert keys[..i + 1][..i] == keys[..i];
        i := i + 1;
      }
      assert keys[..|keys|] == keys;
    }

    /** One message of the batch. */
    method HandleMessage(m: Message, env: Env) returns (effects: seq<Effect>)
      requires Valid()
      modifies this
      ensures Valid()
      ensures Step(Snapshot(), effects) == Process(old(Snapshot()), m, env)
    {
      if m.body.None? {
        return [];
      }
      var b := m.body.value;
      var ctx := ContextOf(m, b);
      if IsCommandText(ctx.text) {
        effects := HandleCommand(CommandName(ctx.text), ctx, env);
        return;
      }
      ghost var s0 := Snapshot();
      assert Process(s0, m, env) == Archive(s0, b, ctx, env);
      effects := AppendText(ctx, env);
      ghost var t := LogText(s0, ctx, env);
      if IsStatusMedia(ctx, b) {
        var archived := ArchiveStatus(b, ctx, env);
        effects := effects + archived;
        return;
      }
      ghost var md := Step(t.state, []);
      if IsMediaType(b.contentType) {
        var archived := ArchiveMedia(b, ctx, env);
        md := RegularMedia(t.state, b, ctx, env);
        effects := effects + archived;
      }
      ghost var pre := BeforeSweep(s0, b, ctx, env);
      assert Snapshot() == pre.state && effects == pre.effects;
      var swept := SweepLogs(env);
      effects := effects + swept;
    }

    /** `for (const msg of messages)`: the messages of one `messages.upsert` event, in order. */
    method HandleUpsert(ms: seq<Message>, envs: seq<Env>) returns (effects: seq<Effect>)
      requires |ms| == |envs|
      requires Valid()
      modifies this
      ensures Valid()
      ensures Step(Snapshot(), effects) == ProcessAll(old(Snapshot()), ms, envs)
    {
      effects := [];
      var i := 0;
      while i < |ms|
        invariant 0 <= i <= |ms|
        invariant Valid()
        invariant Step(Snapshot(), effects) == ProcessAll(old(Snapshot()), ms[..i], envs[..i])
      {
        var e := HandleMessage(ms[i], envs[i]);
        effects := effects + e;
        assert ms[..i + 1][..i] == ms[..i];
        assert envs[..i + 1][..i] == envs[..i];
        i := i + 1;
      }
      assert ms[..|ms|] == ms;
      assert envs[..|envs|] == envs;
    }
  }
}
