/**
  What the index.mjs handler guarantees, proved about IngestSpec: commands
  short-circuit everything, configuration changes only through commands,
  the forward ledger only grows and never gains a duplicate, a message is
  forwarded at most once, the sweep resets exactly the counters that
  reached the threshold, and which log file the sweep sends.
*/
module IngestProofs {

  import opened Wrappers
  import opened JsText
  import opened Messages
  import opened Helpers
  import opened IngestSpec

  // ---------------------------------------------------------------------
  // Commands
  // ---------------------------------------------------------------------

  /** Whether the message is a command: it has content and its trimmed text starts with `!`. */
  predicate IsCommand(m: Message) {
    m.body.Some? && IsCommandText(ResolveText(m.body.value))
  }

  /**
    A command message, whatever its name, writes no log line, saves no
    media, forwards nothing, touches no counter and no ledger entry, and
    does not sweep: its only effects are replies to the chat and the
    configuration being persisted.
  */
  lemma CommandsShortCircuit(s: State, m: Message, env: Env)
    requires IsCommand(m)
    ensures var r := Process(s, m, env);
      && r.state.counters == s.counters && r.state.order == s.order && r.state.ledger == s.ledger
      && forall e :: e in r.effects ==> e.PersistConfig? || (e.Send? && e.what.Reply?)
  {
  }

  /** The command branch of Process, with the name and context it runs on. */
  lemma ProcessCommand(s: State, m: Message, env: Env)
    requires IsCommand(m)
    ensures Process(s, m, env) ==
      Command(s, CommandName(ResolveText(m.body.value)), ContextOf(m, m.body.value), env)
  {
  }

  /** The archive branch of Process. */
  lemma ProcessArchive(s: State, m: Message, env: Env)
    requires m.body.Some? && !IsCommand(m)
    ensures Process(s, m, env) == Archive(s, m.body.value, ContextOf(m, m.body.value), env)
  {
  }

  /** A command with any other name than the four known ones is ignored entirely. */
  lemma UnknownCommandIsInert(s: State, m: Message, env: Env)
    requires IsCommand(m)
    requires CommandName(ResolveText(m.body.value)) !in {"setgroupbackup", "setowner", "menu", "ping"}
    ensures Process(s, m, env) == Step(s, [])
  {
    ProcessCommand(s, m, env);
  }

  /**
    `!setgroupbackup` inside a group makes that group the backup group and
    persists the configuration; anywhere else the configuration is
    unchanged and the chat gets a warning.
  */
  lemma SetGroupBackup(s: State, m: Message, env: Env)
    requires IsCommand(m) && CommandName(ResolveText(m.body.value)) == "setgroupbackup"
    ensures var remote := OrElse(m.key.remoteJid, "");
      var r := Process(s, m, env);
      if IsGroup(remote) then
        r.state == s.(config := s.config.(backupGroup := Some(remote)))
        && r.effects == [PersistConfig, Send(remote, Reply(BackupSet))]
      else
        r.state == s && r.effects == [Send(remote, Reply(UseInsideGroup))]
  {
    ProcessCommand(s, m, env);
  }

  /**
    `!setowner` makes the bot id (learnt from the socket when not yet known)
    the owner and persists the configuration; without a bot id the
    configuration is unchanged and the chat gets an error.
  */
  lemma SetOwner(s: State, m: Message, env: Env)
    requires IsCommand(m) && CommandName(ResolveText(m.body.value)) == "setowner"
    ensures var bot := if Present(s.botId) then s.botId else env.sockBotId;
      var remote := OrElse(m.key.remoteJid, "");
      var r := Process(s, m, env);
      r.state.botId == bot
      && (Present(bot) ==> r.state.config == s.config.(owner := bot)
                           && r.effects == [PersistConfig, Send(remote, Reply(OwnerSet(bot.value)))])
      && (!Present(bot) ==> r.state.config == s.config && r.effects == [Send(remote, Reply(NoBotId))])
  {
    ProcessCommand(s, m, env);
    SetOwnerCommand(s, ContextOf(m, m.body.value), env);
  }

  /** The `setowner` branch of the command step. */
  lemma SetOwnerCommand(s: State, ctx: Context, env: Env)
    ensures var bot := if Present(s.botId) then s.botId else env.sockBotId;
      var r := Command(s, "setowner", ctx, env);
      r.state.botId == bot
      && (Present(bot) ==> r.state.config == s.config.(owner := bot)
                           && r.effects == [PersistConfig, Send(ctx.remote, Reply(OwnerSet(bot.value)))])
      && (!Present(bot) ==> r.state.config == s.config && r.effects == [Send(ctx.remote, Reply(NoBotId))])
  {
  }

  /**
    A `!` followed by one word is a command whose name is that word
    lower-cased, whatever white space surrounds it: `!SetGroupBackup` and
    `  !setgroupbackup\n` both name `setgroupbackup`.
  */
  lemma CommandNameOfWord(lead: string, w: string, trail: string)
    requires forall i :: 0 <= i < |lead| ==> IsSpace(lead[i])
    requires forall i :: 0 <= i < |trail| ==> IsSpace(trail[i])
    requires w != [] && forall i :: 0 <= i < |w| ==> !IsSpace(w[i])
    ensures IsCommandText(lead + "!" + w + trail)
    ensures CommandName(lead + "!" + w + trail) == ToLower(w)
  {
    TrimCommand(lead, w, trail);
    CommandNameOfTrimmed(lead + "!" + w + trail, w);
  }

  lemma TrimCommand(lead: string, w: string, trail: string)
    requires forall i :: 0 <= i < |lead| ==> IsSpace(lead[i])
    requires forall i :: 0 <= i < |trail| ==> IsSpace(trail[i])
    requires w != [] && !IsSpace(w[|w| - 1])
    ensures Trim(lead + "!" + w + trail) == "!" + w
  {
    assert lead + "!" + w + trail == lead + ("!" + w) + trail;
    TrimAround(lead, "!" + w, trail);
  }

  /**
    Any text whose trim is `!`, optional white space, a word and then
    nothing or white space and more is a command named by that word,
    lower-cased: the words after the first are arguments.
  */
  lemma CommandNameOfWords(text: string, sp: string, w: string, rest: string)
    requires Trim(text) == "!" + (sp + w + rest)
    requires forall i :: 0 <= i < |sp| ==> IsSpace(sp[i])
    requires forall i :: 0 <= i < |w| ==> !IsSpace(w[i])
    requires rest == [] || IsSpace(rest[0])
    requires w == [] ==> rest == []
    ensures IsCommandText(text) && CommandName(text) == ToLower(w)
  {
    CommandNameAfterBang(text, sp + w + rest);
    FirstWordAfterSpace(sp + w + rest, sp, w, rest);
  }

  /** In particular, a text that trims to `!` and one word is a command named by that word, lower-cased. */
  lemma CommandNameOfTrimmed(text: string, w: string)
    requires w != [] && forall i :: 0 <= i < |w| ==> !IsSpace(w[i])
    requires Trim(text) == "!" + w
    ensures IsCommandText(text) && CommandName(text) == ToLower(w)
  {
    CommandNameAfterBang(text, w);
    TrimOfWord(w);
    FirstWordOfWord(w);
  }

  /** A text that trims to `!` and `u` is a command named by the first word of `u`'s trim, lower-cased. */
  lemma CommandNameAfterBang(text: string, u: string)
    requires Trim(text) == "!" + u
    ensures IsCommandText(text) && CommandName(text) == ToLower(FirstWord(Trim(u)))
    ensures u == [] || !IsSpace(u[|u| - 1])
  {
    var t := Trim(text);
    assert t[..1] == "!" && t[1..] == u;
    assert u == [] || u[|u| - 1] == t[|t| - 1];
  }

  /** The first word of the trim of white space, a word and then nothing or white space and more. */
  lemma FirstWordAfterSpace(u: string, sp: string, w: string, rest: string)
    requires u == sp + w + rest && (u == [] || !IsSpace(u[|u| - 1]))
    requires forall i :: 0 <= i < |sp| ==> IsSpace(sp[i])
    requires forall i :: 0 <= i < |w| ==> !IsSpace(w[i])
    requires rest == [] || IsSpace(rest[0])
    requires w == [] ==> rest == []
    ensures FirstWord(Trim(u)) == w
  {
    if w == [] {
      assert u == sp;
      AllSpaceTrimsEmpty(u);
    } else {
      var v := w + rest;
      assert u == sp + v + [];
      assert v[|v| - 1] == u[|u| - 1];
      TrimAround(sp, v, []);
      FirstWordOfPrefix(w, rest);
    }
  }

  /** A text of white space alone that does not end in white space is empty. */
  lemma AllSpaceTrimsEmpty(u: string)
    requires forall i :: 0 <= i < |u| ==> IsSpace(u[i])
    requires u == [] || !IsSpace(u[|u| - 1])
    ensures u == [] && Trim(u) == []
  {
  }

  /** A word without white space is its own trim. */
  lemma TrimOfWord(w: string)
    requires forall i :: 0 <= i < |w| ==> !IsSpace(w[i])
    ensures Trim(w) == w
  {
    if w != [] {
      assert TrimStart(w) == w;
      assert TrimEnd(w) == w;
    }
  }

  lemma FirstWordOfWord(w: string)
    requires forall i :: 0 <= i < |w| ==> !IsSpace(w[i])
    ensures FirstWord(w) == w
  {
    assert w + [] == w;
    FirstWordOfPrefix(w, []);
  }

  /** The first word of a word followed by nothing or by white space is that word. */
  lemma {:induction false} FirstWordOfPrefix(w: string, rest: string)
    requires forall i :: 0 <= i < |w| ==> !IsSpace(w[i])
    requires rest == [] || IsSpace(rest[0])
    ensures FirstWord(w + rest) == w
    decreases |w|
  {
    if w != [] {
      assert (w + rest)[1..] == w[1..] + rest;
      FirstWordOfPrefix(w[1..], rest);
    } else {
      assert w + rest == rest;
    }
  }

  /** The same for a bare `!word`, which trimming leaves as it is. */
  lemma CommandNameOfBareWord(w: string)
    requires w != [] && forall i :: 0 <= i < |w| ==> !IsSpace(w[i])
    ensures Trim("!" + w) == "!" + w
    ensures IsCommandText("!" + w) && CommandName("!" + w) == ToLower(w)
  {
    var t := "!" + w;
    assert t[0] == '!';
    assert t[1..] == w;
    TrimOfWord(t);
    CommandNameOfTrimmed(t, w);
  }

  /** Command names ignore ASCII case: `!SetGroupBackup` and `!PING` name `setgroupbackup` and `ping`. */
  lemma CommandNameIgnoresCase(w: string, name: string)
    requires name != [] && forall i :: 0 <= i < |name| ==> 'a' <= name[i] <= 'z'
    requires CaseVariant(w, name)
    ensures IsCommandText("!" + w) && CommandName("!" + w) == name
  {
    assert forall i :: 0 <= i < |w| ==> !IsSpace(w[i]) by {
      forall i | 0 <= i < |w|
        ensures !IsSpace(w[i])
      {
        assert 'a' <= w[i] <= 'z' || 'A' <= w[i] <= 'Z';
      }
    }
    CommandNameOfBareWord(w);
    LowerOfCaseVariant(w, name);
  }

  /** Trimming white space around a word that neither starts nor ends with it gives the word. */
  lemma {:induction false} TrimAround(lead: string, w: string, trail: string)
    requires forall i :: 0 <= i < |lead| ==> IsSpace(lead[i])
    requires forall i :: 0 <= i < |trail| ==> IsSpace(trail[i])
    requires w != [] && !IsSpace(w[0]) && !IsSpace(w[|w| - 1])
    ensures Trim(lead + w + trail) == w
  {
    TrimStartSpaces(lead, w + trail);
    assert lead + w + trail == lead + (w + trail);
    TrimEndSpaces(w, trail);
  }

  lemma {:induction false} TrimStartSpaces(lead: string, rest: string)
    requires forall i :: 0 <= i < |lead| ==> IsSpace(lead[i])
    requires rest != [] && !IsSpace(rest[0])
    ensures TrimStart(lead + rest) == rest
    decreases |lead|
  {
    if lead != [] {
      assert (lead + rest)[1..] == lead[1..] + rest;
      TrimStartSpaces(lead[1..], rest);
    }
  }

  lemma {:induction false} TrimEndSpaces(w: string, trail: string)
    requires forall i :: 0 <= i < |trail| ==> IsSpace(trail[i])
    requires w != [] && !IsSpace(w[|w| - 1])
    ensures TrimEnd(w + trail) == w
    decreases |trail|
  {
    if trail != [] {
      assert (w + trail)[..|w + trail| - 1] == w + trail[..|trail| - 1];
      TrimEndSpaces(w, trail[..|trail| - 1]);
    } else {
      assert w + trail == w;
    }
  }

  /**
    Messages that are no command never change the configuration or the bot
    id: those change only through commands and the connection handler.
  */
  lemma ConfigOnlyChangedByCommands(s: State, m: Message, env: Env)
    requires !IsCommand(m)
    ensures Process(s, m, env).state.config == s.config
    ensures Process(s, m, env).state.botId == s.botId
  {
  }

  // ---------------------------------------------------------------------
  // The forward ledger
  // ---------------------------------------------------------------------

  lemma DistinctAppend(l: seq<string>, x: string)
    requires Distinct(l) && x !in l
    ensures Distinct(l + [x])
  {
  }

  /** The ledger `b` extends `a`, and keeps it free of duplicates. */
  predicate GrowsDistinct(a: seq<string>, b: seq<string>) {
    a <= b && (Distinct(a) ==> Distinct(b))
  }

  lemma GrowsDistinctTrans(a: seq<string>, b: seq<string>, c: seq<string>)
    requires GrowsDistinct(a, b) && GrowsDistinct(b, c)
    ensures GrowsDistinct(a, c)
  {
  }

  /** The sweep keeps the ledger free of duplicates: it appends a marker only when it is absent. */
  lemma {:induction false} SweepKeepsLedgerDistinct(s: State, keys: seq<string>, env: Env)
    ensures GrowsDistinct(s.ledger, Sweep(s, keys, env).state.ledger)
    decreases |keys|
  {
    if keys != [] {
      var prev := Sweep(s, keys[..|keys| - 1], env);
      SweepKeepsLedgerDistinct(s, keys[..|keys| - 1], env);
      var key := keys[|keys| - 1];
      if key in prev.state.counters && prev.state.counters[key] >= Threshold(prev.state.config)
         && LogSent(prev.state, key, env) && Distinct(prev.state.ledger) {
        var f := SweepFile(key);
        DistinctAppend(prev.state.ledger, Marker(f, env.logFiles[f]));
      }
      GrowsDistinctTrans(s.ledger, prev.state.ledger, Sweep(s, keys, env).state.ledger);
    }
  }

  /** The text and media steps append at most the message id, and only when it is absent. */
  lemma BeforeSweepLedger(s: State, b: Body, ctx: Context, env: Env)
    ensures GrowsDistinct(s.ledger, BeforeSweep(s, b, ctx, env).state.ledger)
  {
    var t := LogText(s, ctx, env);
    if IsMediaType(b.contentType) && b.download.Some? && env.writeOk && ForwardDecision(t.state, ctx) && Distinct(s.ledger) {
      DistinctAppend(s.ledger, ctx.id.value);
    }
  }

  /** The archive of a message appends to the ledger only entries that are absent. */
  lemma ArchiveLedger(s: State, b: Body, ctx: Context, env: Env)
    ensures GrowsDistinct(s.ledger, Archive(s, b, ctx, env).state.ledger)
  {
    var t := LogText(s, ctx, env);
    if IsStatusMedia(ctx, b) {
      if b.download.Some? && env.writeOk && ForwardDecision(t.state, ctx) && Distinct(s.ledger) {
        DistinctAppend(s.ledger, ctx.id.value);
      }
    } else {
      var pre := BeforeSweep(s, b, ctx, env);
      BeforeSweepLedger(s, b, ctx, env);
      SweepKeepsLedgerDistinct(pre.state, pre.state.order, env);
      GrowsDistinctTrans(s.ledger, pre.state.ledger, Archive(s, b, ctx, env).state.ledger);
    }
  }

  /**
    Handling a message only appends to the ledger, and an entry is appended
    only when it is absent: a ledger without duplicates stays without.
  */
  lemma LedgerGrowsWithoutDuplicates(s: State, m: Message, env: Env)
    ensures s.ledger <= Process(s, m, env).state.ledger
    ensures Distinct(s.ledger) ==> Distinct(Process(s, m, env).state.ledger)
  {
    if m.body.Some? {
      if IsCommand(m) {
        ProcessCommand(s, m, env);
      } else {
        ProcessArchive(s, m, env);
        ArchiveLedger(s, m.body.value, ContextOf(m, m.body.value), env);
      }
    }
  }

  /** Over a whole batch the ledger too only grows and stays free of duplicates. */
  lemma {:induction false} BatchLedgerGrowsWithoutDuplicates(s: State, ms: seq<Message>, envs: seq<Env>)
    requires |ms| == |envs|
    ensures s.ledger <= ProcessAll(s, ms, envs).state.ledger
    ensures Distinct(s.ledger) ==> Distinct(ProcessAll(s, ms, envs).state.ledger)
    decreases |ms|
  {
    if ms != [] {
      var prev := ProcessAll(s, ms[..|ms| - 1], envs[..|envs| - 1]);
      BatchLedgerGrowsWithoutDuplicates(s, ms[..|ms| - 1], envs[..|envs| - 1]);
      LedgerGrowsWithoutDuplicates(prev.state, ms[|ms| - 1], envs[|envs| - 1]);
    }
  }

  /** The sweep only sends log files and persists the ledger. */
  lemma {:induction false} SweepSendsOnlyLogs(s: State, keys: seq<string>, env: Env)
    ensures forall e :: e in Sweep(s, keys, env).effects ==> e.PersistLedger? || (e.Send? && e.what.LogDocument?)
    decreases |keys|
  {
    if keys != [] {
      SweepSendsOnlyLogs(s, keys[..|keys| - 1], env);
    }
  }

  /** A save and a log line forward nothing and append to the line's file only. */
  lemma LoggedForwardsNothing(saved: Option<MediaPath>, data: Bytes, line: Effect)
    requires line.AppendLog?
    ensures MediaSends(SaveEffects(saved, data) + [line]) == []
    ensures LogAppends(SaveEffects(saved, data) + [line]) == [line.file]
  {
    var pre := SaveEffects(saved, data);
    assert [line][1..] == [];
    assert MediaSends([line]) == [] && LogAppends([line]) == [line.file];
    assert MediaSends(pre) == [] && LogAppends(pre) == [] by {
      if saved.Some? {
        assert pre[1..] == [];
      }
    }
    MediaSendsAppend(pre, [line]);
    LogAppendsAppend(pre, [line]);
  }

  /** The forward of a saved item: one document, to the backup group, then the ledger save. */
  lemma ForwardEffects(s: State, ctx: Context, p: MediaPath, mime: string, data: Bytes)
    requires ForwardDecision(s, ctx)
    ensures MediaSends(Forward(s, ctx, p, mime, data).effects) == [Send(s.config.backupGroup.value, MediaDocument(p.name, mime, data))]
    ensures LogAppends(Forward(s, ctx, p, mime, data).effects) == []
  {
    var f := Forward(s, ctx, p, mime, data);
    assert f.effects[1..][1..] == [];
  }

  /**
    The media forward of the status channel: exactly one document, the
    saved file's bytes under its name and mimetype, sent to the backup
    group, and only when the gate allows.
  */
  lemma StatusMediaForwards(s: State, b: Body, ctx: Context, env: Env)
    ensures MediaSends(StatusMedia(s, b, ctx, env).effects) ==
      if b.download.Some? && env.writeOk && ForwardDecision(s, ctx)
      then [Send(s.config.backupGroup.value, MediaDocument(StatusFile(b, ctx, env).name, MimeOf(b.mimetype), b.download.value))]
      else []
    ensures ForwardsMedia(StatusMedia(s, b, ctx, env).effects) <==>
      b.download.Some? && env.writeOk && ForwardDecision(s, ctx)
  {
    if b.download.Some? {
      var data := b.download.value;
      var path := StatusFile(b, ctx, env);
      var saved := Saved(env, path);
      var logged := SaveEffects(saved, data) + [StatusLog(ctx, env, saved)];
      LoggedForwardsNothing(saved, data, StatusLog(ctx, env, saved));
      if env.writeOk && ForwardDecision(s, ctx) {
        var f := Forward(s, ctx, path, MimeOf(b.mimetype), data);
        ForwardEffects(s, ctx, path, MimeOf(b.mimetype), data);
        MediaSendsAppend(logged, f.effects);
      }
    }
    ForwardsMediaIffSends(StatusMedia(s, b, ctx, env).effects);
  }

  /**
    The media forward of a regular media item: exactly one document, the
    saved file's bytes under its name and mimetype, sent to the backup
    group, and only when the gate allows.
  */
  lemma RegularMediaForwards(s: State, b: Body, ctx: Context, env: Env)
    requires IsMediaType(b.contentType)
    ensures MediaSends(RegularMedia(s, b, ctx, env).effects) ==
      if b.download.Some? && env.writeOk && ForwardDecision(s, ctx)
      then [Send(s.config.backupGroup.value, MediaDocument(MediaFile(b, ctx, env).name, MimeOf(b.mimetype), b.download.value))]
      else []
    ensures ForwardsMedia(RegularMedia(s, b, ctx, env).effects) <==>
      b.download.Some? && env.writeOk && ForwardDecision(s, ctx)
  {
    if b.download.Some? {
      var data := b.download.value;
      var path := MediaFile(b, ctx, env);
      var saved := Saved(env, path);
      var logged := SaveEffects(saved, data) + [MediaLog(b, ctx, env, saved)];
      LoggedForwardsNothing(saved, data, MediaLog(b, ctx, env, saved));
      if env.writeOk && ForwardDecision(s, ctx) {
        var f := Forward(s, ctx, path, MimeOf(b.mimetype), data);
        ForwardEffects(s, ctx, path, MimeOf(b.mimetype), data);
        MediaSendsAppend(logged, f.effects);
      }
    }
    ForwardsMediaIffSends(RegularMedia(s, b, ctx, env).effects);
  }

  /** A status item's archive sends the media documents of its status step, and no other. */
  lemma ArchiveStatusSends(s: State, b: Body, ctx: Context, env: Env)
    requires IsStatusMedia(ctx, b)
    ensures MediaSends(Archive(s, b, ctx, env).effects) == MediaSends(StatusMedia(LogText(s, ctx, env).state, b, ctx, env).effects)
  {
    var t := LogText(s, ctx, env);
    assert !ForwardsMedia(t.effects);
    ForwardsMediaIffSends(t.effects);
    MediaSendsAppend(t.effects, StatusMedia(t.state, b, ctx, env).effects);
  }

  /** Any other item's archive sends the media documents of its media step, and no other. */
  lemma ArchiveRegularSends(s: State, b: Body, ctx: Context, env: Env)
    requires !IsStatusMedia(ctx, b)
    ensures MediaSends(Archive(s, b, ctx, env).effects) ==
      if IsMediaType(b.contentType) then MediaSends(RegularMedia(LogText(s, ctx, env).state, b, ctx, env).effects) else []
  {
    var pre := BeforeSweep(s, b, ctx, env);
    var sw := Sweep(pre.state, pre.state.order, env);
    assert Archive(s, b, ctx, env).effects == pre.effects + sw.effects;
    BeforeSweepSends(s, b, ctx, env);
    SweepSendsOnlyLogs(pre.state, pre.state.order, env);
    assert !ForwardsMedia(sw.effects);
    ForwardsMediaIffSends(sw.effects);
    MediaSendsAppend(pre.effects, sw.effects);
  }

  /** The text and media steps send the media documents of the media step. */
  lemma BeforeSweepSends(s: State, b: Body, ctx: Context, env: Env)
    ensures MediaSends(BeforeSweep(s, b, ctx, env).effects) ==
      if IsMediaType(b.contentType) then MediaSends(RegularMedia(LogText(s, ctx, env).state, b, ctx, env).effects) else []
  {
    var t := LogText(s, ctx, env);
    assert !ForwardsMedia(t.effects);
    ForwardsMediaIffSends(t.effects);
    var md := if IsMediaType(b.contentType) then RegularMedia(t.state, b, ctx, env) else Step(t.state, []);
    MediaSendsAppend(t.effects, md.effects);
  }

  /** Archiving forwards one document exactly when the gate of its status or regular media step allows. */
  lemma ArchiveForwards(s: State, b: Body, ctx: Context, env: Env)
    ensures MediaSends(Archive(s, b, ctx, env).effects) ==
      if IsMediaType(b.contentType) && b.download.Some? && env.writeOk && ForwardDecision(s, ctx)
      then [Send(s.config.backupGroup.value, MediaDocument(ArchivedFile(b, ctx, env).name, MimeOf(b.mimetype), b.download.value))]
      else []
  {
    var t := LogText(s, ctx, env);
    assert ForwardDecision(t.state, ctx) == ForwardDecision(s, ctx);
    if IsStatusMedia(ctx, b) {
      ArchiveStatusSends(s, b, ctx, env);
      StatusMediaForwards(t.state, b, ctx, env);
    } else {
      ArchiveRegularSends(s, b, ctx, env);
      if IsMediaType(b.contentType) {
        RegularMediaForwards(t.state, b, ctx, env);
      }
    }
  }

  /** The message id is in the ledger after a forward. */
  lemma ArchiveRecordsForward(s: State, b: Body, ctx: Context, env: Env)
    requires ForwardsMedia(Archive(s, b, ctx, env).effects)
    ensures ctx.id.Some? && ctx.id.value in Archive(s, b, ctx, env).state.ledger
  {
    ArchiveForwards(s, b, ctx, env);
    ForwardsMediaIffSends(Archive(s, b, ctx, env).effects);
    var t := LogText(s, ctx, env);
    var id := ctx.id.value;
    assert (s.ledger + [id])[|s.ledger|] == id;
    if !IsStatusMedia(ctx, b) {
      var pre := BeforeSweep(s, b, ctx, env);
      assert id in pre.state.ledger;
    }
  }

  /**
    The forward gate of a live media item: exactly when the download and
    the write succeeded, a backup group is set, the message has an id that
    is not in the ledger yet, and the sender is not `owner || BOT_ID`, one
    document is sent, to the backup group, carrying the saved file's name,
    its mimetype and the downloaded bytes; otherwise none is sent. Once
    forwarded, the id is in the ledger.
  */
  lemma MediaForwardedIffGate(s: State, m: Message, env: Env)
    requires m.body.Some? && !IsCommand(m)
    ensures var b := m.body.value;
      var ctx := ContextOf(m, b);
      var r := Process(s, m, env);
      && MediaSends(r.effects) ==
           (if IsMediaType(b.contentType) && b.download.Some? && env.writeOk && ForwardDecision(s, ctx)
            then [Send(s.config.backupGroup.value,
                       MediaDocument(ArchivedFile(b, ctx, env).name, MimeOf(b.mimetype), b.download.value))]
            else [])
      && (ForwardsMedia(r.effects) <==>
          IsMediaType(b.contentType) && b.download.Some? && env.writeOk && ForwardDecision(s, ctx))
      && (ForwardsMedia(r.effects) ==> ctx.id.value in r.state.ledger)
  {
    var b := m.body.value;
    var ctx := ContextOf(m, b);
    ProcessArchive(s, m, env);
    ArchiveForwards(s, b, ctx, env);
    ForwardsMediaIffSends(Archive(s, b, ctx, env).effects);
    if ForwardsMedia(Archive(s, b, ctx, env).effects) {
      ArchiveRecordsForward(s, b, ctx, env);
    }
  }

  /** Commands forward nothing. */
  lemma CommandForwardsNothing(s: State, m: Message, env: Env)
    requires IsCommand(m)
    ensures !ForwardsMedia(Process(s, m, env).effects)
  {
    ProcessCommand(s, m, env);
  }

  /**
    At most once: once a message has been forwarded, handling the same
    message again (with any clock or file system) does not forward it.
  */
  lemma NeverForwardedTwice(s: State, m: Message, env1: Env, env2: Env)
    requires ForwardsMedia(Process(s, m, env1).effects)
    ensures !ForwardsMedia(Process(Process(s, m, env1).state, m, env2).effects)
  {
    assert m.body.Some?;
    if IsCommand(m) {
      CommandForwardsNothing(s, m, env1);
    } else {
      MediaForwardedIffGate(s, m, env1);
      MediaForwardedIffGate(Process(s, m, env1).state, m, env2);
    }
  }

  /**
    At most once over a batch: a message whose id the ledger held before
    the batch is not forwarded at any point of it, whatever came before it.
  */
  lemma RecordedIdNeverForwarded(s: State, ms: seq<Message>, envs: seq<Env>, x: string)
    requires |ms| == |envs| && x in s.ledger
    ensures forall i :: 0 <= i < |ms| && ms[i].body.Some? && ContextOf(ms[i], ms[i].body.value).id == Some(x) ==>
      !ForwardsMedia(Process(ProcessAll(s, ms[..i], envs[..i]).state, ms[i], envs[i]).effects)
  {
    forall i | 0 <= i < |ms| && ms[i].body.Some? && ContextOf(ms[i], ms[i].body.value).id == Some(x)
      ensures !ForwardsMedia(Process(ProcessAll(s, ms[..i], envs[..i]).state, ms[i], envs[i]).effects)
    {
      var before := ProcessAll(s, ms[..i], envs[..i]).state;
      BatchLedgerGrowsWithoutDuplicates(s, ms[..i], envs[..i]);
      assert x in before.ledger;
      if IsCommand(ms[i]) {
        CommandForwardsNothing(before, ms[i], envs[i]);
      } else {
        MediaForwardedIffGate(before, ms[i], envs[i]);
      }
    }
  }

  /** The state after the first k + 1 messages of a batch is that of handling message k after the first k. */
  lemma ProcessAllStep(s: State, ms: seq<Message>, envs: seq<Env>, k: nat)
    requires |ms| == |envs| && k < |ms|
    ensures ProcessAll(s, ms[..k + 1], envs[..k + 1]).state
         == Process(ProcessAll(s, ms[..k], envs[..k]).state, ms[k], envs[k]).state
  {
    assert ms[..k + 1][..k] == ms[..k] && envs[..k + 1][..k] == envs[..k];
  }

  /** The ledger after a prefix of a batch is a prefix of the ledger after the whole batch. */
  lemma {:induction false} PrefixLedgerGrows(s: State, ms: seq<Message>, envs: seq<Env>, i: nat)
    requires |ms| == |envs| && i <= |ms|
    ensures ProcessAll(s, ms[..i], envs[..i]).state.ledger <= ProcessAll(s, ms, envs).state.ledger
    decreases |ms|
  {
    if i < |ms| {
      var init := ms[..|ms| - 1];
      var einit := envs[..|envs| - 1];
      assert init[..i] == ms[..i] && einit[..i] == envs[..i];
      PrefixLedgerGrows(s, init, einit, i);
      LedgerGrowsWithoutDuplicates(ProcessAll(s, init, einit).state, ms[|ms| - 1], envs[|envs| - 1]);
    } else {
      assert ms[..i] == ms && envs[..i] == envs;
    }
  }

  lemma LedgerGrowsBetween(s: State, ms: seq<Message>, envs: seq<Env>, i: nat, j: nat)
    requires |ms| == |envs| && i <= j <= |ms|
    ensures ProcessAll(s, ms[..i], envs[..i]).state.ledger <= ProcessAll(s, ms[..j], envs[..j]).state.ledger
  {
    assert ms[..j][..i] == ms[..i] && envs[..j][..i] == envs[..i];
    PrefixLedgerGrows(s, ms[..j], envs[..j], i);
  }

  /**
    At most once within a batch: when two deliveries carry the same id and
    the earlier one is forwarded, the later one is not.
  */
  lemma ForwardedOnceInBatch(s: State, ms: seq<Message>, envs: seq<Env>, i: nat, j: nat)
    requires |ms| == |envs| && i < j < |ms|
    requires ms[i].body.Some? && ms[j].body.Some?
    requires ContextOf(ms[i], ms[i].body.value).id == ContextOf(ms[j], ms[j].body.value).id
    requires ForwardsMedia(Process(ProcessAll(s, ms[..i], envs[..i]).state, ms[i], envs[i]).effects)
    ensures !ForwardsMedia(Process(ProcessAll(s, ms[..j], envs[..j]).state, ms[j], envs[j]).effects)
  {
    var before := ProcessAll(s, ms[..i], envs[..i]).state;
    if IsCommand(ms[i]) {
      CommandForwardsNothing(before, ms[i], envs[i]);
    } else {
      MediaForwardedIffGate(before, ms[i], envs[i]);
      var x := ContextOf(ms[i], ms[i].body.value).id.value;
      ProcessAllStep(s, ms, envs, i);
      assert x in ProcessAll(s, ms[..i + 1], envs[..i + 1]).state.ledger;
      LedgerGrowsBetween(s, ms, envs, i + 1, j);
      var later := ProcessAll(s, ms[..j], envs[..j]).state;
      assert x in later.ledger;
      if IsCommand(ms[j]) {
        CommandForwardsNothing(later, ms[j], envs[j]);
      } else {
        MediaForwardedIffGate(later, ms[j], envs[j]);
      }
    }
  }

  // ---------------------------------------------------------------------
  // Counters and the sweep
  // ---------------------------------------------------------------------

  /** The counters once every one that reached the threshold has been reset. */
  function ResetReached(c: map<string, int>, threshold: int): (r: map<string, int>)
    ensures r.Keys == c.Keys
  {
    map k | k in c :: if c[k] >= threshold then 0 else c[k]
  }

  lemma DistinctPrefix(keys: seq<string>, n: nat)
    requires Distinct(keys) && n <= |keys|
    ensures Distinct(keys[..n])
  {
  }

  /** After sweeping some distinct keys, exactly those of them that had reached the threshold are 0. */
  lemma {:induction false} SweepResetsVisited(s: State, keys: seq<string>, env: Env)
    requires Distinct(keys)
    ensures var c := Sweep(s, keys, env).state.counters;
      forall k :: k in s.counters ==>
        c[k] == if k in keys && s.counters[k] >= Threshold(s.config) then 0 else s.counters[k]
    decreases |keys|
  {
    if keys != [] {
      var init := keys[..|keys| - 1];
      var last := keys[|keys| - 1];
      DistinctPrefix(keys, |keys| - 1);
      SweepResetsVisited(s, init, env);
      assert keys == init + [last];
      assert last !in init;
      var prev := Sweep(s, init, env).state;
      var c := SweepKey(prev, last, env).state.counters;
      assert Sweep(s, keys, env).state.counters == c;
      forall k | k in s.counters
        ensures c[k] == if k in keys && s.counters[k] >= Threshold(s.config) then 0 else s.counters[k]
      {
        if k == last {
          assert prev.counters[k] == s.counters[k];
        } else {
          assert (k in keys) == (k in init);
        }
      }
    }
  }

  /**
    The sweep over all counters resets every counter at or over the
    threshold to 0, whatever happens to its log file, and leaves every
    counter under it untouched.
  */
  lemma SweepResetsReached(s: State, env: Env)
    requires ValidState(s)
    ensures Sweep(s, s.order, env).state.counters == ResetReached(s.counters, Threshold(s.config))
  {
    SweepResetsVisited(s, s.order, env);
  }

  /**
    The sweep sends no log file and records no marker when there is no
    backup group, or when the owner is unset or is the bot itself.
  */
  lemma {:induction false} SweepSilentWithoutOwner(s: State, keys: seq<string>, env: Env)
    requires !Present(s.config.backupGroup) || !LogBatchAllowed(s.config, s.botId)
    ensures Sweep(s, keys, env).effects == []
    ensures Sweep(s, keys, env).state.ledger == s.ledger
    decreases |keys|
  {
    if keys != [] {
      SweepSilentWithoutOwner(s, keys[..|keys| - 1], env);
    }
  }

  /** A counter the sweep acts on: at or over the threshold, with a log file on disk. */
  predicate Due(s: State, k: string, env: Env) {
    k in s.counters && s.counters[k] >= Threshold(s.config) && SweepFile(k) in env.logFiles
  }

  /** The marker of a key's log file: its name and modification time. */
  function MarkerOf(k: string, env: Env): string
    requires SweepFile(k) in env.logFiles
  {
    Marker(SweepFile(k), env.logFiles[SweepFile(k)])
  }

  /** Every marker the sweep adds to the ledger is the marker of a due key's log file. */
  lemma {:induction false} SweepAddsOnlyDueMarkers(s: State, keys: seq<string>, env: Env)
    requires Distinct(keys)
    ensures forall x :: x in Sweep(s, keys, env).state.ledger ==>
      x in s.ledger || exists k :: k in keys && Due(s, k, env) && x == MarkerOf(k, env)
    decreases |keys|
  {
    if keys != [] {
      var init := keys[..|keys| - 1];
      var last := keys[|keys| - 1];
      assert keys == init + [last];
      assert last !in init;
      DistinctPrefix(keys, |keys| - 1);
      SweepAddsOnlyDueMarkers(s, init, env);
      SweepResetsVisited(s, init, env);
      var prev := Sweep(s, init, env);
      forall x | x in Sweep(s, keys, env).state.ledger
        ensures x in s.ledger || exists k :: k in keys && Due(s, k, env) && x == MarkerOf(k, env)
      {
        if x !in prev.state.ledger {
          assert prev.state.counters[last] == s.counters[last];
          assert Due(s, last, env) && x == MarkerOf(last, env);
        }
      }
    }
  }

  /**
    With a backup group and an owner distinct from the bot, the sweep over
    distinct keys records the marker of every due key's log file and sends
    the file of every due key whose marker was new. Two due keys that share
    a marker share the file, which the earlier of them has sent.
  */
  lemma {:induction false} SweepSendsReached(s: State, keys: seq<string>, env: Env)
    requires Distinct(keys) && Present(s.config.backupGroup) && LogBatchAllowed(s.config, s.botId)
    ensures var r := Sweep(s, keys, env);
      && (forall k :: k in keys && Due(s, k, env) ==> MarkerOf(k, env) in r.state.ledger)
      && (forall k :: k in keys && Due(s, k, env) && MarkerOf(k, env) !in s.ledger ==>
            Send(s.config.backupGroup.value, LogDocument(SweepFile(k))) in r.effects)
    decreases |keys|
  {
    if keys != [] {
      var init := keys[..|keys| - 1];
      var last := keys[|keys| - 1];
      assert keys == init + [last];
      assert last !in init;
      DistinctPrefix(keys, |keys| - 1);
      SweepSendsReached(s, init, env);
      SweepAddsOnlyDueMarkers(s, init, env);
      SweepResetsVisited(s, init, env);
      var prev := Sweep(s, init, env);
      var step := SweepKey(prev.state, last, env);
      var r := Sweep(s, keys, env);
      assert r.state == step.state && r.effects == prev.effects + step.effects;
      assert prev.state.ledger <= r.state.ledger;
      if Due(s, last, env) {
        assert prev.state.counters[last] == s.counters[last];
        var mk := MarkerOf(last, env);
        if mk !in s.ledger {
          if mk in prev.state.ledger {
            var k :| k in init && Due(s, k, env) && mk == MarkerOf(k, env);
            MarkerDeterminesFile(k, last, env);
          } else {
            assert LogSent(prev.state, last, env);
            assert step.effects[0] in r.effects;
          }
        }
      }
    }
  }

  /** Without media, the steps before the sweep are the text step alone. */
  lemma TextOnlyBeforeSweep(s: State, b: Body, ctx: Context, env: Env)
    requires !IsMediaType(b.contentType)
    ensures BeforeSweep(s, b, ctx, env).state == LogText(s, ctx, env).state
  {
  }

  /**
    A plain message with text: for the chat's key the count goes up by one
    and is reset to 0 if that reaches the threshold; every other counter is
    reset exactly when it had already reached it.
  */
  lemma ThresholdFlush(s: State, m: Message, env: Env)
    requires ValidState(s)
    requires m.body.Some? && !IsCommand(m) && !IsMediaType(m.body.value.contentType)
    requires ResolveText(m.body.value) != ""
    ensures var key := ChatKey(ContextOf(m, m.body.value));
      var n := CountOf(s.counters, key) + 1;
      var c := Process(s, m, env).state.counters;
      && c[key] == (if n >= Threshold(s.config) then 0 else n)
      && forall k :: k in s.counters && k != key ==>
           c[k] == if s.counters[k] >= Threshold(s.config) then 0 else s.counters[k]
  {
    ProcessArchive(s, m, env);
    TextArchiveFlush(s, m.body.value, ContextOf(m, m.body.value), env);
  }

  /** ThresholdFlush for the archive step of a text message. */
  lemma TextArchiveFlush(s: State, b: Body, ctx: Context, env: Env)
    requires ValidState(s) && !IsMediaType(b.contentType) && ctx.text != ""
    ensures var key := ChatKey(ctx);
      var n := CountOf(s.counters, key) + 1;
      var c := Archive(s, b, ctx, env).state.counters;
      && c[key] == (if n >= Threshold(s.config) then 0 else n)
      && forall k :: k in s.counters && k != key ==>
           c[k] == if s.counters[k] >= Threshold(s.config) then 0 else s.counters[k]
  {
    var t := LogText(s, ctx, env).state;
    TextArchiveSweeps(s, b, ctx, env);
    SweepResetsReached(t, env);
  }

  /** The archive of a text message is the sweep after its text step. */
  lemma TextArchiveSweeps(s: State, b: Body, ctx: Context, env: Env)
    requires !IsMediaType(b.contentType)
    ensures var t := LogText(s, ctx, env).state;
      Archive(s, b, ctx, env).state == Sweep(t, t.order, env).state
  {
    assert !IsStatusMedia(ctx, b);
    TextOnlyBeforeSweep(s, b, ctx, env);
  }

  /**
    With a positive threshold, every counter is under it after a message
    that runs the sweep: the N-th event for a key resets its counter, and
    the N+1-th starts a new count. Whether the log file is also sent is
    stated by SweepSendsReached.
  */
  lemma CountersBelowThresholdAfterSweep(s: State, m: Message, env: Env)
    requires ValidState(s) && Threshold(s.config) > 0
    requires m.body.Some? && !IsCommand(m) && !IsStatusMedia(ContextOf(m, m.body.value), m.body.value)
    ensures var c := Process(s, m, env).state.counters;
      forall k :: k in c ==> 0 <= c[k] < Threshold(s.config)
  {
    var b := m.body.value;
    var ctx := ContextOf(m, b);
    ProcessArchive(s, m, env);
    var pre := BeforeSweep(s, b, ctx, env);
    SweepResetsReached(pre.state, env);
  }

  /** No effect in the list sends a log file. */
  predicate NoLogSend(effects: seq<Effect>) {
    forall e :: e in effects ==> !(e.Send? && e.what.LogDocument?)
  }

  lemma NoLogSendAppend(a: seq<Effect>, b: seq<Effect>)
    requires NoLogSend(a) && NoLogSend(b)
    ensures NoLogSend(a + b)
  {
  }

  /**
    A status image or video never reaches the sweep and changes no counter
    beyond the one its caption was logged under.
  */
  lemma StatusMediaSkipsSweep(s: State, m: Message, env: Env)
    requires m.body.Some? && !IsCommand(m)
    requires IsStatusMedia(ContextOf(m, m.body.value), m.body.value)
    ensures var ctx := ContextOf(m, m.body.value);
      var r := Process(s, m, env);
      r.state.counters == LogText(s, ctx, env).state.counters && NoLogSend(r.effects)
  {
    var b := m.body.value;
    var ctx := ContextOf(m, b);
    ProcessArchive(s, m, env);
    var t := LogText(s, ctx, env);
    assert NoLogSend(t.effects);
    StatusMediaSendsNoLog(t.state, b, ctx, env);
    NoLogSendAppend(t.effects, StatusMedia(t.state, b, ctx, env).effects);
  }

  /** The status step sends no log file. */
  lemma StatusMediaSendsNoLog(s: State, b: Body, ctx: Context, env: Env)
    ensures NoLogSend(StatusMedia(s, b, ctx, env).effects)
  {
    if b.download.Some? {
      var data := b.download.value;
      var path := StatusFile(b, ctx, env);
      var saved := Saved(env, path);
      assert NoLogSend(SaveEffects(saved, data));
      assert NoLogSend([StatusLog(ctx, env, saved)]);
      NoLogSendAppend(SaveEffects(saved, data), [StatusLog(ctx, env, saved)]);
      var logged := SaveEffects(saved, data) + [StatusLog(ctx, env, saved)];
      if ForwardDecision(s, ctx) && saved.Some? {
        var f := Forward(s, ctx, path, MimeOf(b.mimetype), data);
        assert NoLogSend(f.effects);
        NoLogSendAppend(logged, f.effects);
      }
    }
  }

  /**
    An image with a caption that is downloaded and counted bumps its chat's
    counter twice before the sweep: once for the caption, once for the
    media.
  */
  lemma CaptionedMediaCountsTwice(s: State, m: Message, env: Env)
    requires m.body.Some? && !IsCommand(m)
    requires var b := m.body.value; IsMediaType(b.contentType) && ResolveText(b) != ""
    requires MediaCounted(s, m.body.value, ContextOf(m, m.body.value), env)
    ensures var b := m.body.value;
      var ctx := ContextOf(m, b);
      BeforeSweep(s, b, ctx, env).state.counters[ChatKey(ctx)] == CountOf(s.counters, ChatKey(ctx)) + 2
  {
  }

  // ---------------------------------------------------------------------
  // Log files
  // ---------------------------------------------------------------------

  /** Sanitising keeps an `@`. */
  lemma SanitizeKeepsAt(s: string)
    requires '@' in s
    ensures '@' in Sanitize(s)
  {
    var pre := Before(s, '@');
    var at := s[|pre|..];
    assert s == pre + at;
    SanitizeAppend(pre, at);
    assert at[0] == '@' && SanitizeChar('@') == ['@'];
    assert Sanitize(at) == ['@'] + Sanitize(at[1..]);
    assert Sanitize(s)[|Sanitize(pre)|] == Sanitize(at)[0];
  }

  /**
    A status item whose download succeeded appends one line, to the status
    log of its sender cut at `@`; the item is saved in the status folder of
    that same sender.
  */
  lemma StatusMediaLogsToSender(s: State, b: Body, ctx: Context, env: Env)
    ensures var name := SafeId(Before(OrUnknown(ctx.participant), '@'));
      && LogAppends(StatusMedia(s, b, ctx, env).effects) == (if b.download.Some? then [LogFile(Status, name + ".txt")] else [])
      && StatusFile(b, ctx, env).category == Status && StatusFile(b, ctx, env).safeId == name
  {
    if b.download.Some? {
      var data := b.download.value;
      var path := StatusFile(b, ctx, env);
      var saved := Saved(env, path);
      var logged := SaveEffects(saved, data) + [StatusLog(ctx, env, saved)];
      LoggedForwardsNothing(saved, data, StatusLog(ctx, env, saved));
      if env.writeOk && ForwardDecision(s, ctx) {
        var f := Forward(s, ctx, path, MimeOf(b.mimetype), data);
        ForwardEffects(s, ctx, path, MimeOf(b.mimetype), data);
        LogAppendsAppend(logged, f.effects);
      }
    }
  }

  /**
    A regular media item whose download succeeded appends one line: to the
    log of the whole group id, or to the user log of the sender cut at `@`.
    It is saved under the group id or the sender, each cut at `@`.
  */
  lemma RegularMediaLogFile(s: State, b: Body, ctx: Context, env: Env)
    requires IsMediaType(b.contentType)
    ensures LogAppends(RegularMedia(s, b, ctx, env).effects) ==
      if b.download.Some?
      then [LogFile(if ctx.isGroup then Group else User,
                    SafeId(if ctx.isGroup then ctx.remote else Before(OrUnknown(ctx.participant), '@')) + ".txt")]
      else []
    ensures MediaFile(b, ctx, env).category == (if ctx.isGroup then Group else User)
    ensures MediaFile(b, ctx, env).safeId ==
      SafeId(Before(if ctx.isGroup then ctx.remote else OrUnknown(ctx.participant), '@'))
  {
    if b.download.Some? {
      var data := b.download.value;
      var path := MediaFile(b, ctx, env);
      var saved := Saved(env, path);
      var logged := SaveEffects(saved, data) + [MediaLog(b, ctx, env, saved)];
      LoggedForwardsNothing(saved, data, MediaLog(b, ctx, env, saved));
      if env.writeOk && ForwardDecision(s, ctx) {
        var f := Forward(s, ctx, path, MimeOf(b.mimetype), data);
        ForwardEffects(s, ctx, path, MimeOf(b.mimetype), data);
        LogAppendsAppend(logged, f.effects);
      }
    }
  }

  /**
    The log a media item's line goes to is the file the sweep sends for
    the counter the item bumps, whenever the counter key's `@g.us` suffix
    agrees with the chat kind and a user's id has a non-empty part before
    `@` (an empty one is logged to `unknown.txt`, swept as `.txt`).
  */
  lemma MediaLoggedToSweptFile(s: State, b: Body, ctx: Context, env: Env)
    requires IsMediaType(b.contentType) && b.download.Some?
    requires ctx.isGroup == IsGroup(ChatKey(ctx))
    requires ctx.isGroup || Before(ctx.participant, '@') != ""
    ensures LogAppends(RegularMedia(s, b, ctx, env).effects) == [SweepFile(ChatKey(ctx))]
  {
    RegularMediaLogFile(s, b, ctx, env);
    if !ctx.isGroup {
      SanitizeBeforeAt(ctx.participant);
    }
  }

  /**
    For a user whose id holds an `@`, text lines go to the log named after
    the whole sanitised id, media lines to the one named after the id cut
    at `@`, and the sweep of the user's counter sends the media log, not
    the text log.
  */
  lemma UserSweepSendsMediaLog(s: State, b: Body, ctx: Context, env: Env)
    requires !ctx.isGroup && !IsGroup(ctx.participant)
    requires '@' in ctx.participant && Before(ctx.participant, '@') != ""
    requires ctx.text != "" && IsMediaType(b.contentType) && b.download.Some?
    ensures LogAppends(LogText(s, ctx, env).effects) == [LogFile(User, SafeId(ctx.participant) + ".txt")]
    ensures LogAppends(RegularMedia(s, b, ctx, env).effects) == [SweepFile(ctx.participant)]
    ensures SweepFile(ctx.participant) != LogFile(User, SafeId(ctx.participant) + ".txt")
  {
    var key := ctx.participant;
    assert LogText(s, ctx, env).effects[1..] == [];
    MediaLoggedToSweptFile(s, b, ctx, env);
    SanitizeBeforeAt(key);
    SanitizeKeepsAt(key);
  }

  /** A log file name tells its category: a group's name holds an `@`, a user's does not. */
  lemma SweepNameShowsCategory(k: string)
    ensures '@' in SweepFile(k).name <==> IsGroup(k)
  {
    var safeKey := Sanitize(k);
    assert '@' !in ".txt";
    if IsGroup(k) {
      assert k[|k| - 5] == "@g.us"[0];
      SanitizeKeepsAt(k);
      assert SweepFile(k).name == safeKey + ".txt";
    } else {
      assert SweepFile(k).name == Before(safeKey, '@') + ".txt";
    }
  }

  /** A safe name is what comes before the first `:` of its marker. */
  lemma NameBeforeColon(name: string, mtime: string)
    requires AllSafe(name)
    ensures Before(name + ":" + mtime, ':') == name
  {
    assert ':' !in name by {
      forall i | 0 <= i < |name|
        ensures name[i] != ':'
      {
        assert IsSafeChar(name[i]);
      }
    }
    assert name + ":" + mtime == name + (":" + mtime);
    BeforeAfterNoSep(name, ":" + mtime, ':');
    assert Before(":" + mtime, ':') == [];
  }

  /** Two keys whose log files carry the same marker have the same log file. */
  lemma MarkerDeterminesFile(k1: string, k2: string, env: Env)
    requires SweepFile(k1) in env.logFiles && SweepFile(k2) in env.logFiles
    requires MarkerOf(k1, env) == MarkerOf(k2, env)
    ensures SweepFile(k1) == SweepFile(k2)
  {
    var f1, f2 := SweepFile(k1), SweepFile(k2);
    NameBeforeColon(f1.name, env.logFiles[f1]);
    NameBeforeColon(f2.name, env.logFiles[f2]);
    SweepNameShowsCategory(k1);
    SweepNameShowsCategory(k2);
  }

  /** The file the sweep sends for a group key is the group's text log. */
  lemma GroupSweepSendsGroupLog(key: string)
    requires IsGroup(key)
    ensures SweepFile(key) == LogFile(Group, SafeId(key) + ".txt")
  {
  }

  // ---------------------------------------------------------------------
  // Defaults
  // ---------------------------------------------------------------------

  /**
    Without a readable config.json the threshold is 10, nothing is
    forwarded (no backup group) and no log batch is sent (no owner).
  */
  lemma DefaultsForwardNothing(botId: Option<string>)
    ensures Threshold(ReadConfig(None)) == 10
    ensures !Present(ReadConfig(None).backupGroup)
    ensures !LogBatchAllowed(ReadConfig(None), botId)
  {
  }

  /** Once the connection opens with a known bot id there is always an owner. */
  lemma OwnerDefaultsToBot(s: State, loaded: Option<Config>, sockBotId: Option<string>)
    requires Present(sockBotId)
    ensures var c := ConnectionOpen(s, loaded, sockBotId).state.config;
      Present(c.owner) && (!Present(ReadConfig(loaded).owner) ==> c.owner == sockBotId)
  {
  }
}
