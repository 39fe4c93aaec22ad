/**
  The `messages.upsert` handler of index.mjs as functions of the handler's
  state: each message either runs a command and stops, or is logged,
  archived (status or regular media, with the forward ledger deciding what
  is forwarded) and followed by the threshold sweep.
*/
module IngestSpec {

  import opened Wrappers
  import opened JsText
  import opened Messages
  import opened Helpers

  /**
    The handler's state: the configuration, `forwardedDB.forwarded`,
    `logCounters` (with its key order) and `BOT_ID`.
  */
  datatype State = State(
    config: Config,
    ledger: seq<string>,
    counters: map<string, int>,
    order: seq<string>,
    botId: Option<string>)

  /** A state and the effects that produced it. */
  datatype Step = Step(state: State, effects: seq<Effect>)

  predicate ValidState(s: State) {
    ValidCounters(s.counters, s.order)
  }

  /** The state at process start: config.json and data/forwarded.json as loaded, no counters, no bot id. */
  function Startup(loadedConfig: Option<Config>, loadedLedger: Option<seq<string>>): (s: State)
    ensures ValidState(s)
    ensures s.counters == map[] && s.order == [] && s.botId == None
    ensures s.config == ReadConfig(loadedConfig) && s.ledger == LoadLedger(loadedLedger)
  {
    State(ReadConfig(loadedConfig), LoadLedger(loadedLedger), map[], [], None)
  }

  /**
    The connection opening: config.json is read again, `BOT_ID` becomes the
    socket's identity, and an unset owner defaults to it (and is persisted).
  */
  function ConnectionOpen(s: State, loaded: Option<Config>, sockBotId: Option<string>): (r: Step)
    ensures r.state.ledger == s.ledger && r.state.counters == s.counters && r.state.order == s.order
    ensures r.state.botId == sockBotId
    ensures Present(sockBotId) ==> Present(r.state.config.owner)
    ensures Present(ReadConfig(loaded).owner) ==> r.state.config == ReadConfig(loaded) && r.effects == []
    ensures r.state.config.backupGroup == ReadConfig(loaded).backupGroup
    ensures r.state.config.logSendThreshold == ReadConfig(loaded).logSendThreshold
    ensures var owner := ReadConfig(loaded).owner;
      && r.state.config.owner == (if Present(owner) || !Present(sockBotId) then owner else sockBotId)
      && r.effects == (if Present(sockBotId) && !Present(owner) then [PersistConfig] else [])
  {
    var c := ReadConfig(loaded);
    if Present(sockBotId) && !Present(c.owner) then
      Step(s.(config := c.(owner := sockBotId), botId := sockBotId), [PersistConfig])
    else
      Step(s.(config := c, botId := sockBotId), [])
  }

  /** Counting one more loggable event for `key`. */
  function BumpKey(s: State, key: string): (t: State)
    ensures t.config == s.config && t.ledger == s.ledger && t.botId == s.botId
    ensures t.counters == s.counters[key := CountOf(s.counters, key) + 1]
    ensures ValidState(s) ==> ValidState(t)
  {
    var (c, o) := Bump(s.counters, s.order, key);
    s.(counters := c, order := o)
  }

  // ---------------------------------------------------------------------
  // Commands (the text starts with `!` once trimmed)
  // ---------------------------------------------------------------------

  /**
    Runs the named command and stops. Only `setgroupbackup` (inside a
    group) and `setowner` (once the bot id is known) change the
    configuration; `setowner` may also learn the bot id from the socket.
    Counters and ledger are never touched, and every effect is a reply to
    the chat or the configuration being persisted.
  */
  function Command(s: State, name: string, ctx: Context, env: Env): (r: Step)
    ensures r.state.ledger == s.ledger && r.state.counters == s.counters && r.state.order == s.order
    ensures forall e :: e in r.effects ==> e.PersistConfig? || (e.Send? && e.to == ctx.remote && e.what.Reply?)
    ensures r.state.config != s.config ==> name in {"setgroupbackup", "setowner"}
    ensures name !in {"setgroupbackup", "setowner", "menu", "ping"} ==> r == Step(s, [])
    ensures name in {"menu", "ping"} ==>
      r.state == s && |r.effects| == 1 && r.effects[0].Send? && r.effects[0].to == ctx.remote
    ensures name != "setowner" ==> r.state.botId == s.botId
  {
    if name == "setgroupbackup" then
      if ctx.isGroup then
        Step(s.(config := s.config.(backupGroup := Some(ctx.remote))),
             [PersistConfig, Send(ctx.remote, Reply(BackupSet))])
      else
        Step(s, [Send(ctx.remote, Reply(UseInsideGroup))])
    else if name == "setowner" then
      var bot := if Present(s.botId) then s.botId else env.sockBotId;
      if !Present(bot) then
        Step(s.(botId := bot), [Send(ctx.remote, Reply(NoBotId))])
      else
        Step(s.(config := s.config.(owner := bot), botId := bot),
             [PersistConfig, Send(ctx.remote, Reply(OwnerSet(bot.value)))])
    else if name == "menu" then
      Step(s, [Send(ctx.remote, Reply(Menu(OrElse(s.config.backupGroup, "not set"))))])
    else if name == "ping" then
      Step(s, [Send(ctx.remote, Reply(PingReport))])
    else
      Step(s, [])
  }

  // ---------------------------------------------------------------------
  // Text logging
  // ---------------------------------------------------------------------

  /**
    Non-empty text is appended as one line to the group's log (keyed by the
    chat) or the user's log (keyed by the whole sender id), and exactly that
    key's counter goes up by one; empty text changes nothing.
  */
  function LogText(s: State, ctx: Context, env: Env): (r: Step)
    ensures r.state.config == s.config && r.state.ledger == s.ledger && r.state.botId == s.botId
    ensures ctx.text == "" ==> r == Step(s, [])
    ensures ctx.text != "" ==>
      && r.effects == [AppendLog(LogFile(if ctx.isGroup then Group else User, SafeId(ChatKey(ctx)) + ".txt"),
                                 TextLine(env.time, ctx.pushName, ctx.participant, ctx.text))]
      && r.state.counters == s.counters[ChatKey(ctx) := CountOf(s.counters, ChatKey(ctx)) + 1]
    ensures ValidState(s) ==> ValidState(r.state)
  {
    if ctx.text == "" then Step(s, [])
    else
      var key := ChatKey(ctx);
      var category := if ctx.isGroup then Group else User;
      Step(BumpKey(s, key),
           [AppendLog(LogFile(category, SafeId(key) + ".txt"),
                      TextLine(env.time, ctx.pushName, ctx.participant, ctx.text))])
  }

  // ---------------------------------------------------------------------
  // Media: saving, logging, forwarding through the ledger
  // ---------------------------------------------------------------------

  /**
    The forward gate: a backup group is set, the message has an id, the id
    is not in the ledger, and the sender is not `owner || BOT_ID`.
  */
  predicate ForwardDecision(s: State, ctx: Context) {
    Present(s.config.backupGroup)
    && ctx.id.Some?
    && ctx.id.value !in s.ledger
    && ForwardAllowed(s.config, s.botId, ctx.participant)
  }

  /** The forward of a saved item and the ledger entry recorded for it, whatever the send's outcome. */
  function Forward(s: State, ctx: Context, p: MediaPath, mime: string, data: Bytes): (r: Step)
    requires ForwardDecision(s, ctx)
    ensures r.state == s.(ledger := s.ledger + [ctx.id.value])
  {
    Step(s.(ledger := s.ledger + [ctx.id.value]),
         [Send(s.config.backupGroup.value, MediaDocument(p.name, mime, data)), PersistLedger])
  }

  /**
    A status image or video: saved under the sender's id cut at `@`,
    logged to the status log, and forwarded when the gate allows. A failed
    download ends it silently; a failed write is logged as `null` and, when
    the gate allows, the forward then throws before sending. Counters never
    change, and the ledger gains exactly the message id exactly when the
    item is forwarded.
  */
  function StatusMedia(s: State, b: Body, ctx: Context, env: Env): (r: Step)
    ensures r.state.config == s.config && r.state.botId == s.botId
    ensures r.state.counters == s.counters && r.state.order == s.order
    ensures r.state.ledger ==
      if b.download.Some? && env.writeOk && ForwardDecision(s, ctx) then s.ledger + [ctx.id.value] else s.ledger
    ensures b.download.None? ==> r.effects == []
    ensures b.download.Some? ==>
      var path := StatusFile(b, ctx, env);
      var saved := Saved(env, path);
      r.effects == SaveEffects(saved, b.download.value) + [StatusLog(ctx, env, saved)]
                   + if env.writeOk && ForwardDecision(s, ctx)
                     then [Send(s.config.backupGroup.value, MediaDocument(path.name, MimeOf(b.mimetype), b.download.value)),
                           PersistLedger]
                     else []
  {
    match b.download
    case None => Step(s, [])
    case Some(data) =>
      var path := StatusFile(b, ctx, env);
      var saved := Saved(env, path);
      var logged := SaveEffects(saved, data) + [StatusLog(ctx, env, saved)];
      if ForwardDecision(s, ctx) && saved.Some? then
        var f := Forward(s, ctx, path, MimeOf(b.mimetype), data);
        Step(f.state, logged + f.effects)
      else
        Step(s, logged)
  }

  /** A status item's sender: the participant cut at `@`, sanitised. */
  function StatusSender(ctx: Context): string {
    SafeId(Before(OrUnknown(ctx.participant), '@'))
  }

  /** Where a status item is saved: under its sender, named after the clock and the extension. */
  function StatusFile(b: Body, ctx: Context, env: Env): MediaPath {
    MediaPath(Status, StatusSender(ctx), "status_" + env.stamp + "." + Extension(MimeOf(b.mimetype)))
  }

  /** The status log line, to the log of the sender cut at `@`. */
  function StatusLog(ctx: Context, env: Env, saved: Option<MediaPath>): Effect {
    AppendLog(LogFile(Status, StatusSender(ctx) + ".txt"),
              "[" + env.time + "] STATUS from " + ctx.participant + ": saved " + PathText(env, saved))
  }

  /**
    Whether a regular media item reaches its counter increment: the
    download succeeded, and no forward was attempted on a failed write.
  */
  predicate MediaCounted(s: State, b: Body, ctx: Context, env: Env) {
    b.download.Some? && (env.writeOk || !ForwardDecision(s, ctx))
  }

  /**
    An image, video, audio, document or view-once item outside the status
    channel: saved under the chat (group) or the sender cut at `@` (user),
    logged to the group's log or to the sender-cut-at-`@` user log,
    forwarded when the gate allows, and counted for the chat (group) or the
    whole sender id (user) when nothing threw before the increment.
  */
  function RegularMedia(s: State, b: Body, ctx: Context, env: Env): (r: Step)
    requires IsMediaType(b.contentType)
    ensures r.state.config == s.config && r.state.botId == s.botId
    ensures r.state.ledger ==
      if b.download.Some? && env.writeOk && ForwardDecision(s, ctx) then s.ledger + [ctx.id.value] else s.ledger
    ensures MediaCounted(s, b, ctx, env) ==>
      r.state.counters == BumpKey(s, ChatKey(ctx)).counters
    ensures !MediaCounted(s, b, ctx, env) ==> r.state.counters == s.counters
    ensures ValidState(s) ==> ValidState(r.state)
    ensures b.download.None? ==> r.effects == []
    ensures b.download.Some? ==>
      var path := MediaFile(b, ctx, env);
      var saved := Saved(env, path);
      r.effects == SaveEffects(saved, b.download.value) + [MediaLog(b, ctx, env, saved)]
                   + if env.writeOk && ForwardDecision(s, ctx)
                     then [Send(s.config.backupGroup.value, MediaDocument(path.name, MimeOf(b.mimetype), b.download.value)),
                           PersistLedger]
                     else []
  {
    match b.download
    case None => Step(s, [])
    case Some(data) =>
      var path := MediaFile(b, ctx, env);
      var saved := Saved(env, path);
      var logged := SaveEffects(saved, data) + [MediaLog(b, ctx, env, saved)];
      if !ForwardDecision(s, ctx) then
        Step(BumpKey(s, ChatKey(ctx)), logged)
      else if env.writeOk then
        var f := Forward(s, ctx, path, MimeOf(b.mimetype), data);
        Step(BumpKey(f.state, ChatKey(ctx)), logged + f.effects)
      else
        Step(s, logged)
  }

  /**
    Where a regular media item is saved: under the group id cut at `@`, or
    the sender cut at `@`, named after the content type, the clock and the
    extension.
  */
  function MediaFile(b: Body, ctx: Context, env: Env): MediaPath
    requires IsMediaType(b.contentType)
  {
    var sender := Before(OrUnknown(ctx.participant), '@');
    MediaPath(if ctx.isGroup then Group else User,
              SafeId(if ctx.isGroup then Before(ctx.remote, '@') else sender),
              MediaPrefix(b.contentType) + "_" + env.stamp + "." + Extension(MimeOf(b.mimetype)))
  }

  /** The file an archived status or regular media item is saved to. */
  function ArchivedFile(b: Body, ctx: Context, env: Env): MediaPath
    requires IsMediaType(b.contentType)
  {
    if IsStatusMedia(ctx, b) then StatusFile(b, ctx, env) else MediaFile(b, ctx, env)
  }

  /** The media log line: to the group's log, or to the user log of the sender cut at `@`. */
  function MediaLog(b: Body, ctx: Context, env: Env, saved: Option<MediaPath>): Effect
    requires IsMediaType(b.contentType)
  {
    var logId := SafeId(if ctx.isGroup then ctx.remote else Before(OrUnknown(ctx.participant), '@'));
    AppendLog(LogFile(if ctx.isGroup then Group else User, logId + ".txt"),
              "[" + env.time + "] MEDIA " + TypeName(b.contentType) + " from " + ctx.participant
              + " saved " + PathText(env, saved))
  }

  // ---------------------------------------------------------------------
  // The threshold sweep
  // ---------------------------------------------------------------------

  /** The ledger marker of a log file: `basename:mtime`. */
  function Marker(f: LogFile, mtime: string): string {
    f.name + ":" + mtime
  }

  /** Whether the sweep sends the log file of `key` (its counter has reached the threshold). */
  predicate LogSent(s: State, key: string, env: Env) {
    var f := SweepFile(key);
    f in env.logFiles && Present(s.config.backupGroup)
    && Marker(f, env.logFiles[f]) !in s.ledger
    && LogBatchAllowed(s.config, s.botId)
  }

  /**
    One counter of the sweep. A counter at or over the threshold is reset
    to 0 whatever happens to its file; the file is sent, and its marker
    recorded, exactly when it exists, a backup group is set, the marker is
    new and the owner guard allows. A counter under the threshold is left
    alone.
  */
  function SweepKey(s: State, key: string, env: Env): (r: Step)
    ensures r.state.config == s.config && r.state.botId == s.botId && r.state.order == s.order
    ensures r.state.counters.Keys == s.counters.Keys
    ensures ValidState(s) ==> ValidState(r.state)
    ensures key in s.counters && s.counters[key] >= Threshold(s.config) ==>
      && r.state.counters == s.counters[key := 0]
      && r.state.ledger == (if LogSent(s, key, env)
                            then s.ledger + [Marker(SweepFile(key), env.logFiles[SweepFile(key)])]
                            else s.ledger)
    ensures key in s.counters && s.counters[key] >= Threshold(s.config) ==>
      r.effects == if LogSent(s, key, env)
                   then [Send(s.config.backupGroup.value, LogDocument(SweepFile(key))), PersistLedger]
                   else []
    ensures !(key in s.counters && s.counters[key] >= Threshold(s.config)) ==> r == Step(s, [])
  {
    if key in s.counters && s.counters[key] >= Threshold(s.config) then
      var f := SweepFile(key);
      var reset := s.(counters := s.counters[key := 0]);
      if LogSent(s, key, env) then
        Step(reset.(ledger := s.ledger + [Marker(f, env.logFiles[f])]),
             [Send(s.config.backupGroup.value, LogDocument(f)), PersistLedger])
      else
        Step(reset, [])
    else
      Step(s, [])
  }

  /**
    The sweep over a snapshot of the counter keys, in order. It changes
    neither the configuration, the bot id nor the key order, keeps the set
    of keys, and only appends to the ledger.
  */
  function Sweep(s: State, keys: seq<string>, env: Env): (r: Step)
    decreases |keys|
    ensures r.state.config == s.config && r.state.botId == s.botId && r.state.order == s.order
    ensures r.state.counters.Keys == s.counters.Keys
    ensures s.ledger <= r.state.ledger
    ensures ValidState(s) ==> ValidState(r.state)
  {
    if keys == [] then Step(s, [])
    else
      var prev := Sweep(s, keys[..|keys| - 1], env);
      var last := SweepKey(prev.state, keys[|keys| - 1], env);
      Step(last.state, prev.effects + last.effects)
  }

  // ---------------------------------------------------------------------
  // One message, and a batch of them
  // ---------------------------------------------------------------------

  /** The text step and, for an image, video, audio, document or view-once item, the media step. */
  function BeforeSweep(s: State, b: Body, ctx: Context, env: Env): (r: Step)
    ensures r.state.config == s.config && r.state.botId == s.botId
    ensures ValidState(s) ==> ValidState(r.state)
  {
    var t := LogText(s, ctx, env);
    var md := if IsMediaType(b.contentType) then RegularMedia(t.state, b, ctx, env) else Step(t.state, []);
    Step(md.state, t.effects + md.effects)
  }

  /**
    A message that is no command: a status image or video is logged and
    archived and ends there; anything else goes through the text and media
    steps and then the sweep over the counters as they are after them.
  */
  function Archive(s: State, b: Body, ctx: Context, env: Env): (r: Step)
    ensures r.state.config == s.config && r.state.botId == s.botId
    ensures ValidState(s) ==> ValidState(r.state)
  {
    if IsStatusMedia(ctx, b) then
      var t := LogText(s, ctx, env);
      var st := StatusMedia(t.state, b, ctx, env);
      Step(st.state, t.effects + st.effects)
    else
      var pre := BeforeSweep(s, b, ctx, env);
      var sw := Sweep(pre.state, pre.state.order, env);
      Step(sw.state, pre.effects + sw.effects)
  }

  /**
    One message of `messages.upsert`: skipped without content, run as a
    command when its trimmed text starts with `!`, archived otherwise.
  */
  function Process(s: State, m: Message, env: Env): (r: Step)
    ensures m.body.None? ==> r == Step(s, [])
    ensures ValidState(s) ==> ValidState(r.state)
  {
    match m.body
    case None => Step(s, [])
    case Some(b) =>
      var ctx := ContextOf(m, b);
      if IsCommandText(ctx.text) then Command(s, CommandName(ctx.text), ctx, env)
      else Archive(s, b, ctx, env)
  }

  /** The messages of one batch, one after the other. */
  function ProcessAll(s: State, ms: seq<Message>, envs: seq<Env>): (r: Step)
    requires |ms| == |envs|
    decreases |ms|
    ensures ValidState(s) ==> ValidState(r.state)
  {
    if ms == [] then Step(s, [])
    else
      var prev := ProcessAll(s, ms[..|ms| - 1], envs[..|envs| - 1]);
      var last := Process(prev.state, ms[|ms| - 1], envs[|envs| - 1]);
      Step(last.state, prev.effects + last.effects)
  }
}
