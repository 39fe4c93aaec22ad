/**
  The `messages.upsert` handler of index.js, the earlier revision, as
  functions of its state. It knows one command (`!setgroupbackup`, matched
  as a prefix), keeps no forward ledger and no owner, forwards every saved
  status or media item to the backup group, and sends a log file whenever
  its counter reaches the threshold and the file exists.
*/
module LegacySpec {

  import opened Wrappers
  import opened JsText
  import opened Messages
  import opened Helpers

  /** The handler's state: the configuration and `logCounters` (with its key order). */
  datatype LegacyState = LegacyState(config: Config, counters: map<string, int>, order: seq<string>)

  datatype LegacyStep = LegacyStep(state: LegacyState, effects: seq<Effect>)

  predicate ValidLegacy(s: LegacyState) {
    ValidCounters(s.counters, s.order)
  }

  /** Process start: config.json as loaded, no counters. */
  function LegacyStartup(loaded: Option<Config>): (s: LegacyState)
    ensures ValidLegacy(s) && s.counters == map[] && s.order == []
    ensures s.config == ReadConfig(loaded)
    ensures loaded.None? ==> s.config == DefaultConfig
  {
    LegacyState(ReadConfig(loaded), map[], [])
  }

  /** The connection opening only reads config.json again. */
  function LegacyConnectionOpen(s: LegacyState, loaded: Option<Config>): (r: LegacyState)
    ensures r.counters == s.counters && r.order == s.order
    ensures loaded.Some? ==> r.config == loaded.value
    ensures loaded.None? ==> r.config == DefaultConfig
  {
    s.(config := ReadConfig(loaded))
  }

  /** Counting one more loggable event for `key`. */
  function LegacyBump(s: LegacyState, key: string): (t: LegacyState)
    ensures t.config == s.config
    ensures t.counters == s.counters[key := CountOf(s.counters, key) + 1]
    ensures ValidLegacy(s) ==> ValidLegacy(t)
  {
    var (c, o) := Bump(s.counters, s.order, key);
    s.(counters := c, order := o)
  }

  /**
    `!setgroupbackup`: inside a group the chat becomes the backup group and
    the configuration is persisted; elsewhere nothing changes and the chat
    gets a warning. Counters are never touched.
  */
  function BackupCommand(s: LegacyState, ctx: Context): (r: LegacyStep)
    ensures r.state.counters == s.counters && r.state.order == s.order
    ensures r.state.config.owner == s.config.owner && r.state.config.logSendThreshold == s.config.logSendThreshold
    ensures r.state.config.backupGroup == if ctx.isGroup then Some(ctx.remote) else s.config.backupGroup
    ensures forall e :: e in r.effects ==> e.PersistConfig? || (e.Send? && e.to == ctx.remote && e.what.Reply?)
    ensures PersistConfig in r.effects <==> ctx.isGroup
  {
    if ctx.isGroup then
      LegacyStep(s.(config := s.config.(backupGroup := Some(ctx.remote))),
                 [PersistConfig, Send(ctx.remote, Reply(BackupSet))])
    else
      LegacyStep(s, [Send(ctx.remote, Reply(UseInsideGroup))])
  }

  /**
    Non-empty text is appended as one line to the group's log (keyed by the
    chat) or the user's log (keyed by the whole sender id, without an
    `unknown` fallback), and exactly that key's counter goes up by one.
  */
  function LegacyLogText(s: LegacyState, ctx: Context, env: Env): (r: LegacyStep)
    ensures r.state.config == s.config
    ensures ctx.text == "" ==> r == LegacyStep(s, [])
    ensures ctx.text != "" ==>
      && |r.effects| == 1 && r.effects[0].AppendLog?
      && r.effects[0].file == LogFile(if ctx.isGroup then Group else User, Sanitize(ChatKey(ctx)) + ".txt")
      && r.state.counters == s.counters[ChatKey(ctx) := CountOf(s.counters, ChatKey(ctx)) + 1]
    ensures ValidLegacy(s) ==> ValidLegacy(r.state)
  {
    if ctx.text == "" then LegacyStep(s, [])
    else
      var key := ChatKey(ctx);
      LegacyStep(LegacyBump(s, key),
                 [AppendLog(LogFile(if ctx.isGroup then Group else User, Sanitize(key) + ".txt"),
                            TextLine(env.time, ctx.pushName, ctx.participant, ctx.text))])
  }

  /** A status item's sender: the participant cut at `@`, sanitised. */
  function LegacyStatusSender(ctx: Context): string {
    Sanitize(Before(ctx.participant, '@'))
  }

  function LegacyStatusFile(b: Body, ctx: Context, env: Env): MediaPath {
    MediaPath(Status, LegacyStatusSender(ctx), "status_" + env.stamp + "." + LegacyExtension(MimeOf(b.mimetype)))
  }

  function LegacyStatusLog(ctx: Context, env: Env, saved: Option<MediaPath>): Effect {
    AppendLog(LogFile(Status, LegacyStatusSender(ctx) + ".txt"),
              "[" + env.time + "] STATUS from " + ctx.participant + ": saved " + PathText(env, saved))
  }

  /**
    A status image or video: saved, logged, and forwarded whenever a backup
    group is set, with no duplicate check. A failed download ends it
    silently; a failed write is logged as `null` and, with a backup group
    set, the forward then throws before sending. The state never changes.
  */
  function LegacyStatusMedia(s: LegacyState, b: Body, ctx: Context, env: Env): (r: LegacyStep)
    ensures r.state == s
    ensures b.download.None? ==> r.effects == []
    ensures b.download.Some? ==>
      var path := LegacyStatusFile(b, ctx, env);
      var saved := Saved(env, path);
      r.effects == SaveEffects(saved, b.download.value) + [LegacyStatusLog(ctx, env, saved)]
                   + if env.writeOk && Present(s.config.backupGroup)
                     then [Send(s.config.backupGroup.value, MediaDocument(path.name, MimeOf(b.mimetype), b.download.value))]
                     else []
  {
    match b.download
    case None => LegacyStep(s, [])
    case Some(data) =>
      var path := LegacyStatusFile(b, ctx, env);
      var saved := Saved(env, path);
      var logged := SaveEffects(saved, data) + [LegacyStatusLog(ctx, env, saved)];
      if Present(s.config.backupGroup) && saved.Some? then
        LegacyStep(s, logged + [Send(s.config.backupGroup.value, MediaDocument(path.name, MimeOf(b.mimetype), data))])
      else
        LegacyStep(s, logged)
  }

  /** Whether a regular media item reaches its counter increment. */
  predicate LegacyMediaCounted(s: LegacyState, b: Body, env: Env) {
    b.download.Some? && (env.writeOk || !Present(s.config.backupGroup))
  }

  /** Where a regular media item is saved: under the chat or the sender, each cut at `@`. */
  function LegacyMediaFile(b: Body, ctx: Context, env: Env): MediaPath
    requires IsMediaType(b.contentType)
  {
    MediaPath(if ctx.isGroup then Group else User,
              Sanitize(if ctx.isGroup then Before(ctx.remote, '@') else Before(ctx.participant, '@')),
              MediaPrefix(b.contentType) + "_" + env.stamp + "." + LegacyExtension(MimeOf(b.mimetype)))
  }

  /** The file an archived status or regular media item is saved to. */
  function LegacyArchivedFile(b: Body, ctx: Context, env: Env): MediaPath
    requires IsMediaType(b.contentType)
  {
    if IsStatusMedia(ctx, b) then LegacyStatusFile(b, ctx, env) else LegacyMediaFile(b, ctx, env)
  }

  /** The media log line: to the group's log, or to the user log of the sender cut at `@`. */
  function LegacyMediaLog(b: Body, ctx: Context, env: Env, saved: Option<MediaPath>): Effect
    requires IsMediaType(b.contentType)
  {
    AppendLog(LogFile(if ctx.isGroup then Group else User,
                      Sanitize(if ctx.isGroup then ctx.remote else Before(ctx.participant, '@')) + ".txt"),
              "[" + env.time + "] MEDIA " + TypeName(b.contentType) + " from " + ctx.participant
              + " saved " + PathText(env, saved))
  }

  /**
    An image, video, audio, document or view-once item: saved, logged,
    forwarded whenever a backup group is set, and counted for the chat
    unless the forward threw on a failed write.
  */
  function LegacyRegularMedia(s: LegacyState, b: Body, ctx: Context, env: Env): (r: LegacyStep)
    requires IsMediaType(b.contentType)
    ensures r.state.config == s.config
    ensures LegacyMediaCounted(s, b, env) ==> r.state.counters == LegacyBump(s, ChatKey(ctx)).counters
    ensures !LegacyMediaCounted(s, b, env) ==> r.state == s
    ensures ValidLegacy(s) ==> ValidLegacy(r.state)
    ensures b.download.None? ==> r.effects == []
    ensures b.download.Some? ==>
      var path := LegacyMediaFile(b, ctx, env);
      var saved := Saved(env, path);
      r.effects == SaveEffects(saved, b.download.value) + [LegacyMediaLog(b, ctx, env, saved)]
                   + if env.writeOk && Present(s.config.backupGroup)
                     then [Send(s.config.backupGroup.value, MediaDocument(path.name, MimeOf(b.mimetype), b.download.value))]
                     else []
  {
    match b.download
    case None => LegacyStep(s, [])
    case Some(data) =>
      var path := LegacyMediaFile(b, ctx, env);
      var saved := Saved(env, path);
      var logged := SaveEffects(saved, data) + [LegacyMediaLog(b, ctx, env, saved)];
      if !Present(s.config.backupGroup) then
        LegacyStep(LegacyBump(s, ChatKey(ctx)), logged)
      else if env.writeOk then
        LegacyStep(LegacyBump(s, ChatKey(ctx)),
                   logged + [Send(s.config.backupGroup.value, MediaDocument(path.name, MimeOf(b.mimetype), data))])
      else
        LegacyStep(s, logged)
  }

  /**
    One counter of the sweep: at or over the threshold it is reset to 0,
    and its log file is sent exactly when the file exists and a backup
    group is set; under the threshold nothing happens.
  */
  function LegacySweepKey(s: LegacyState, key: string, env: Env): (r: LegacyStep)
    ensures r.state.config == s.config && r.state.order == s.order
    ensures r.state.counters.Keys == s.counters.Keys
    ensures ValidLegacy(s) ==> ValidLegacy(r.state)
    ensures key in s.counters && s.counters[key] >= Threshold(s.config) ==>
      && r.state.counters == s.counters[key := 0]
      && r.effects == (if SweepFile(key) in env.logFiles && Present(s.config.backupGroup)
                       then [Send(s.config.backupGroup.value, LogDocument(SweepFile(key)))]
                       else [])
    ensures !(key in s.counters && s.counters[key] >= Threshold(s.config)) ==> r == LegacyStep(s, [])
  {
    if key in s.counters && s.counters[key] >= Threshold(s.config) then
      var f := SweepFile(key);
      var sent := if f in env.logFiles && Present(s.config.backupGroup)
                  then [Send(s.config.backupGroup.value, LogDocument(f))]
                  else [];
      LegacyStep(s.(counters := s.counters[key := 0]), sent)
    else
      LegacyStep(s, [])
  }

  /** The sweep over a snapshot of the counter keys, in order. */
  function LegacySweep(s: LegacyState, keys: seq<string>, env: Env): (r: LegacyStep)
    decreases |keys|
    ensures r.state.config == s.config && r.state.order == s.order
    ensures r.state.counters.Keys == s.counters.Keys
    ensures ValidLegacy(s) ==> ValidLegacy(r.state)
  {
    if keys == [] then LegacyStep(s, [])
    else
      var prev := LegacySweep(s, keys[..|keys| - 1], env);
      var last := LegacySweepKey(prev.state, keys[|keys| - 1], env);
      LegacyStep(last.state, prev.effects + last.effects)
  }

  /** The text step and, for a media item, the media step. */
  function LegacyBeforeSweep(s: LegacyState, b: Body, ctx: Context, env: Env): (r: LegacyStep)
    ensures r.state.config == s.config
    ensures ValidLegacy(s) ==> ValidLegacy(r.state)
  {
    var t := LegacyLogText(s, ctx, env);
    var md := if IsMediaType(b.contentType) then LegacyRegularMedia(t.state, b, ctx, env) else LegacyStep(t.state, []);
    LegacyStep(md.state, t.effects + md.effects)
  }

  /**
    A message that is not the command: a status image or video is logged
    and archived and ends there; anything else goes through the text and
    media steps and then the sweep.
  */
  function LegacyArchive(s: LegacyState, b: Body, ctx: Context, env: Env): (r: LegacyStep)
    ensures r.state.config == s.config
    ensures ValidLegacy(s) ==> ValidLegacy(r.state)
  {
    if IsStatusMedia(ctx, b) then
      var t := LegacyLogText(s, ctx, env);
      var st := LegacyStatusMedia(t.state, b, ctx, env);
      LegacyStep(st.state, t.effects + st.effects)
    else
      var pre := LegacyBeforeSweep(s, b, ctx, env);
      var sw := LegacySweep(pre.state, pre.state.order, env);
      LegacyStep(sw.state, pre.effects + sw.effects)
  }

  /**
    One message: skipped without content, handled as `!setgroupbackup` when
    its trimmed, lower-cased text starts with it, archived otherwise.
  */
  function LegacyProcess(s: LegacyState, m: Message, env: Env): (r: LegacyStep)
    ensures m.body.None? ==> r == LegacyStep(s, [])
    ensures ValidLegacy(s) ==> ValidLegacy(r.state)
  {
    match m.body
    case None => LegacyStep(s, [])
    case Some(b) =>
      var ctx := ContextOf(m, b);
      if IsBackupCommandText(ctx.text) then BackupCommand(s, ctx)
      else LegacyArchive(s, b, ctx, env)
  }

  function LegacyProcessAll(s: LegacyState, ms: seq<Message>, envs: seq<Env>): (r: LegacyStep)
    requires |ms| == |envs|
    decreases |ms|
    ensures ValidLegacy(s) ==> ValidLegacy(r.state)
  {
    if ms == [] then LegacyStep(s, [])
    else
      var prev := LegacyProcessAll(s, ms[..|ms| - 1], envs[..|envs| - 1]);
      var last := LegacyProcess(prev.state, ms[|ms| - 1], envs[|envs| - 1]);
      LegacyStep(last.state, prev.effects + last.effects)
  }
}
