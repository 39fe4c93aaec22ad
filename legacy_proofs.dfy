/**
  What the index.js handler guarantees, proved about LegacySpec: the one
  command is recognised by a prefix and short-circuits everything, other
  `!` texts are logged like any text, every saved item is forwarded when a
  backup group is set (again on every replay), status items skip the
  sweep, and the sweep resets every counter that reached the threshold.
*/
module LegacyProofs {

  import opened Wrappers
  import opened JsText
  import opened Messages
  import opened Helpers
  import opened LegacySpec
  import opened IngestProofs

  /** Whether a message is the `!setgroupbackup` command of index.js. */
  predicate IsLegacyCommand(m: Message) {
    m.body.Some? && IsBackupCommandText(ResolveText(m.body.value))
  }

  lemma LegacyProcessCommand(s: LegacyState, m: Message, env: Env)
    requires IsLegacyCommand(m)
    ensures LegacyProcess(s, m, env) == BackupCommand(s, ContextOf(m, m.body.value))
  {
  }

  lemma LegacyProcessArchive(s: LegacyState, m: Message, env: Env)
    requires m.body.Some? && !IsLegacyCommand(m)
    ensures LegacyProcess(s, m, env) == LegacyArchive(s, m.body.value, ContextOf(m, m.body.value), env)
  {
  }

  // ---------------------------------------------------------------------
  // The command
  // ---------------------------------------------------------------------

  /** Trailing white space is all `TrimEnd` removes, so a prefix ending in a non-space survives it. */
  lemma TrimEndKeepsPrefix(p: string, q: string)
    requires p != [] && !IsSpace(p[|p| - 1])
    ensures p <= TrimEnd(p + q)
  {
    assert (p + q)[|p| - 1] == p[|p| - 1];
  }

  /**
    Any text made of white space, a word that lower-cases to
    `!setgroupbackup`, and anything after it is the command: the match is
    case-insensitive and also takes longer words such as
    `!setgroupbackupnow`.
  */
  lemma PrefixIsCommand(lead: string, p: string, rest: string)
    requires forall i :: 0 <= i < |lead| ==> IsSpace(lead[i])
    requires ToLower(p) == "!setgroupbackup"
    ensures IsBackupCommandText(lead + p + rest)
  {
    CommandWordEnds();
    LowerWordStartsTrimmed(lead, p, rest, "!setgroupbackup");
  }

  /** The command is matched whatever the case of its letters: `!SetGroupBackup now` is it too. */
  lemma CaseVariantIsCommand(lead: string, p: string, rest: string)
    requires forall i :: 0 <= i < |lead| ==> IsSpace(lead[i])
    requires CaseVariant(p, "!setgroupbackup")
    ensures IsBackupCommandText(lead + p + rest)
  {
    LowerOfCaseVariant(p, "!setgroupbackup");
    PrefixIsCommand(lead, p, rest);
  }

  /** The command word neither starts nor ends with white space. */
  lemma CommandWordEnds()
    ensures var c := "!setgroupbackup"; c != [] && !IsSpace(c[0]) && !IsSpace(c[|c| - 1])
  {
  }

  /** A word between leading white space and anything else lower-cases to a prefix of the trimmed, lower-cased text. */
  lemma LowerWordStartsTrimmed(lead: string, p: string, rest: string, c: string)
    requires forall i :: 0 <= i < |lead| ==> IsSpace(lead[i])
    requires ToLower(p) == c && c != [] && !IsSpace(c[0]) && !IsSpace(c[|c| - 1])
    ensures StartsWith(ToLower(Trim(lead + p + rest)), c)
  {
    var u := p + rest;
    assert lead + p + rest == lead + u;
    assert c[0] == LowerChar(p[0]) && c[|c| - 1] == LowerChar(p[|p| - 1]);
    LowerCharKeepsSpace(p[0]);
    LowerCharKeepsSpace(p[|p| - 1]);
    assert u[0] == p[0];
    TrimStartSpaces(lead, u);
    TrimEndKeepsPrefix(p, rest);
    var t := Trim(lead + u);
    assert p <= t;
    LowerKeepsPrefix(p, t);
    assert Trim(lead + p + rest) == t;
  }


  /**
    The converse of PrefixIsCommand, for every text: a text that is the
    command is its leading white space, a fifteen-character word that
    lower-cases to `!setgroupbackup`, and whatever follows.
  */
  lemma CommandIsPrefix(text: string)
    requires IsBackupCommandText(text)
    ensures var k := LeadingSpace(text); var p := Trim(text)[..15];
      && (forall i :: 0 <= i < k ==> IsSpace(text[i]))
      && ToLower(p) == "!setgroupbackup"
      && k + 15 <= |text| && text == text[..k] + p + text[k + 15..]
  {
    var c := "!setgroupbackup";
    assert |c| == 15;
    LowerTrimmedPrefix(text, c);
    TrimSplit(text, |c|);
  }

  /** Lower-casing keeps a prefix a prefix. */
  lemma LowerKeepsPrefix(p: string, t: string)
    requires p <= t
    ensures StartsWith(ToLower(t), ToLower(p))
  {
    assert forall i :: 0 <= i < |p| ==> ToLower(t)[..|p|][i] == LowerChar(t[i]) == LowerChar(p[i]) == ToLower(p)[i];
  }

  /**
    The command never logs, counts, saves, forwards or sweeps: inside a
    group it makes the chat the backup group and persists the
    configuration, anywhere else it changes nothing and warns the chat.
  */
  lemma LegacyCommandShortCircuits(s: LegacyState, m: Message, env: Env)
    requires IsLegacyCommand(m)
    ensures var remote := OrElse(m.key.remoteJid, "");
      var r := LegacyProcess(s, m, env);
      && r.state.counters == s.counters
      && (IsGroup(remote) ==> r.state.config == s.config.(backupGroup := Some(remote)) && PersistConfig in r.effects)
      && (!IsGroup(remote) ==> r.state == s && PersistConfig !in r.effects)
      && forall e :: e in r.effects ==> e.PersistConfig? || (e.Send? && e.to == remote && e.what.Reply?)
  {
    LegacyProcessCommand(s, m, env);
  }

  /**
    Any other non-empty text, including `!menu` or `!ping`, is logged like
    ordinary text: its first effect is the log line of its chat.
  */
  lemma OtherTextLogged(s: LegacyState, m: Message, env: Env)
    requires m.body.Some? && !IsLegacyCommand(m)
    requires ResolveText(m.body.value) != ""
    ensures var ctx := ContextOf(m, m.body.value);
      var r := LegacyProcess(s, m, env);
      r.effects != [] && r.effects[0] ==
        AppendLog(LogFile(if ctx.isGroup then Group else User, Sanitize(ChatKey(ctx)) + ".txt"),
                  TextLine(env.time, ctx.pushName, ctx.participant, ctx.text))
  {
    LegacyProcessArchive(s, m, env);
    var b := m.body.value;
    var ctx := ContextOf(m, b);
    var t := LegacyLogText(s, ctx, env);
    if IsStatusMedia(ctx, b) {
      var st := LegacyStatusMedia(t.state, b, ctx, env);
      assert (t.effects + st.effects)[0] == t.effects[0];
    } else {
      var pre := LegacyBeforeSweep(s, b, ctx, env);
      var md := if IsMediaType(b.contentType) then LegacyRegularMedia(t.state, b, ctx, env) else LegacyStep(t.state, []);
      assert (t.effects + md.effects)[0] == t.effects[0];
      var sw := LegacySweep(pre.state, pre.state.order, env);
      assert (pre.effects + sw.effects)[0] == pre.effects[0];
    }
  }

  /**
    No text shorter than `!setgroupbackup` is the command of index.js, so
    `!menu`, `!ping` and `!setowner` are logged as plain text there.
  */
  lemma ShortTextIsNotLegacyCommand(text: string)
    requires |text| < |"!setgroupbackup"|
    ensures !IsBackupCommandText(text)
  {
    assert |ToLower(Trim(text))| <= |text|;
  }

  // ---------------------------------------------------------------------
  // Forwarding without a ledger
  // ---------------------------------------------------------------------

  /**
    A status item is forwarded as one document, the saved file's bytes
    under its name and mimetype, to the backup group, exactly when the
    download and the write succeeded and a backup group is set.
  */
  lemma LegacyStatusForwards(s: LegacyState, b: Body, ctx: Context, env: Env)
    ensures MediaSends(LegacyStatusMedia(s, b, ctx, env).effects) ==
      if b.download.Some? && env.writeOk && Present(s.config.backupGroup)
      then [Send(s.config.backupGroup.value,
                 MediaDocument(LegacyStatusFile(b, ctx, env).name, MimeOf(b.mimetype), b.download.value))]
      else []
  {
    if b.download.Some? {
      var data := b.download.value;
      var path := LegacyStatusFile(b, ctx, env);
      var saved := Saved(env, path);
      var logged := SaveEffects(saved, data) + [LegacyStatusLog(ctx, env, saved)];
      LoggedForwardsNothing(saved, data, LegacyStatusLog(ctx, env, saved));
      if env.writeOk && Present(s.config.backupGroup) {
        var fw := [Send(s.config.backupGroup.value, MediaDocument(path.name, MimeOf(b.mimetype), data))];
        assert fw[1..] == [];
        MediaSendsAppend(logged, fw);
      }
    }
  }

  /**
    A regular media item is forwarded as one document, the saved file's
    bytes under its name and mimetype, to the backup group, exactly when
    the download and the write succeeded and a backup group is set.
  */
  lemma LegacyRegularForwards(s: LegacyState, b: Body, ctx: Context, env: Env)
    requires IsMediaType(b.contentType)
    ensures MediaSends(LegacyRegularMedia(s, b, ctx, env).effects) ==
      if b.download.Some? && env.writeOk && Present(s.config.backupGroup)
      then [Send(s.config.backupGroup.value,
                 MediaDocument(LegacyMediaFile(b, ctx, env).name, MimeOf(b.mimetype), b.download.value))]
      else []
  {
    if b.download.Some? {
      var data := b.download.value;
      var path := LegacyMediaFile(b, ctx, env);
      var saved := Saved(env, path);
      var logged := SaveEffects(saved, data) + [LegacyMediaLog(b, ctx, env, saved)];
      LoggedForwardsNothing(saved, data, LegacyMediaLog(b, ctx, env, saved));
      if env.writeOk && Present(s.config.backupGroup) {
        var fw := [Send(s.config.backupGroup.value, MediaDocument(path.name, MimeOf(b.mimetype), data))];
        assert fw[1..] == [];
        MediaSendsAppend(logged, fw);
      }
    }
  }

  /** The sweep only sends log files to the backup group. */
  lemma {:induction false} LegacySweepSendsOnlyLogs(s: LegacyState, keys: seq<string>, env: Env)
    ensures forall e :: e in LegacySweep(s, keys, env).effects ==>
      e.Send? && e.what.LogDocument? && Some(e.to) == s.config.backupGroup
    decreases |keys|
  {
    if keys != [] {
      LegacySweepSendsOnlyLogs(s, keys[..|keys| - 1], env);
    }
  }

  /** A status item's archive sends the media documents of its status step, and no other. */
  lemma LegacyArchiveStatusSends(s: LegacyState, b: Body, ctx: Context, env: Env)
    requires IsStatusMedia(ctx, b)
    ensures MediaSends(LegacyArchive(s, b, ctx, env).effects) ==
      MediaSends(LegacyStatusMedia(LegacyLogText(s, ctx, env).state, b, ctx, env).effects)
  {
    var t := LegacyLogText(s, ctx, env);
    assert !ForwardsMedia(t.effects);
    ForwardsMediaIffSends(t.effects);
    MediaSendsAppend(t.effects, LegacyStatusMedia(t.state, b, ctx, env).effects);
  }

  /** The text and media steps send the media documents of the media step. */
  lemma LegacyBeforeSweepSends(s: LegacyState, b: Body, ctx: Context, env: Env)
    ensures MediaSends(LegacyBeforeSweep(s, b, ctx, env).effects) ==
      if IsMediaType(b.contentType) then MediaSends(LegacyRegularMedia(LegacyLogText(s, ctx, env).state, b, ctx, env).effects) else []
  {
    var t := LegacyLogText(s, ctx, env);
    assert !ForwardsMedia(t.effects);
    ForwardsMediaIffSends(t.effects);
    var md := if IsMediaType(b.contentType) then LegacyRegularMedia(t.state, b, ctx, env) else LegacyStep(t.state, []);
    MediaSendsAppend(t.effects, md.effects);
  }

  /** Any other item's archive sends the media documents of its media step, and no other. */
  lemma LegacyArchiveRegularSends(s: LegacyState, b: Body, ctx: Context, env: Env)
    requires !IsStatusMedia(ctx, b)
    ensures MediaSends(LegacyArchive(s, b, ctx, env).effects) ==
      if IsMediaType(b.contentType) then MediaSends(LegacyRegularMedia(LegacyLogText(s, ctx, env).state, b, ctx, env).effects) else []
  {
    var pre := LegacyBeforeSweep(s, b, ctx, env);
    var sw := LegacySweep(pre.state, pre.state.order, env);
    assert LegacyArchive(s, b, ctx, env).effects == pre.effects + sw.effects;
    LegacyBeforeSweepSends(s, b, ctx, env);
    LegacySweepSendsOnlyLogs(pre.state, pre.state.order, env);
    assert !ForwardsMedia(sw.effects);
    ForwardsMediaIffSends(sw.effects);
    MediaSendsAppend(pre.effects, sw.effects);
  }

  lemma LegacyArchiveForwards(s: LegacyState, b: Body, ctx: Context, env: Env)
    ensures MediaSends(LegacyArchive(s, b, ctx, env).effects) ==
      if IsMediaType(b.contentType) && b.download.Some? && env.writeOk && Present(s.config.backupGroup)
      then [Send(s.config.backupGroup.value,
                 MediaDocument(LegacyArchivedFile(b, ctx, env).name, MimeOf(b.mimetype), b.download.value))]
      else []
  {
    var t := LegacyLogText(s, ctx, env);
    if IsStatusMedia(ctx, b) {
      LegacyArchiveStatusSends(s, b, ctx, env);
      LegacyStatusForwards(t.state, b, ctx, env);
    } else {
      LegacyArchiveRegularSends(s, b, ctx, env);
      if IsMediaType(b.contentType) {
        LegacyRegularForwards(t.state, b, ctx, env);
      }
    }
  }

  /**
    Every saved status or media item is forwarded, as one document carrying
    the saved file's name, its mimetype and the downloaded bytes, to the
    backup group exactly when one is set; there is no ledger, no owner and
    no self filter.
  */
  lemma LegacyForwardedIffBackupGroup(s: LegacyState, m: Message, env: Env)
    requires m.body.Some? && !IsLegacyCommand(m)
    ensures var b := m.body.value;
      var ctx := ContextOf(m, b);
      MediaSends(LegacyProcess(s, m, env).effects) ==
        if IsMediaType(b.contentType) && b.download.Some? && env.writeOk && Present(s.config.backupGroup)
        then [Send(s.config.backupGroup.value,
                   MediaDocument(LegacyArchivedFile(b, ctx, env).name, MimeOf(b.mimetype), b.download.value))]
        else []
  {
    LegacyProcessArchive(s, m, env);
    LegacyArchiveForwards(s, m.body.value, ContextOf(m, m.body.value), env);
  }

  /**
    No duplicate check: a message that was forwarded is forwarded again,
    the same bytes with the same mimetype to the same backup group,
    whenever it is delivered again and its file is written again.
  */
  lemma LegacyForwardsOnEveryReplay(s: LegacyState, m: Message, env1: Env, env2: Env)
    requires ForwardsMedia(LegacyProcess(s, m, env1).effects)
    requires env2.writeOk
    ensures var first := MediaSends(LegacyProcess(s, m, env1).effects);
      var again := MediaSends(LegacyProcess(LegacyProcess(s, m, env1).state, m, env2).effects);
      && |first| == 1 && |again| == 1
      && Some(first[0].to) == s.config.backupGroup && again[0].to == first[0].to
      && again[0].what.MediaDocument? && first[0].what.MediaDocument?
      && again[0].what.mimetype == first[0].what.mimetype && again[0].what.data == first[0].what.data
  {
    assert m.body.Some?;
    LegacyCommandForwardsNothing(s, m, env1);
    LegacyForwardedIffBackupGroup(s, m, env1);
    LegacyProcessArchive(s, m, env1);
    LegacyForwardedIffBackupGroup(LegacyProcess(s, m, env1).state, m, env2);
    ForwardsMediaIffSends(LegacyProcess(s, m, env1).effects);
  }

  /** The command forwards nothing. */
  lemma LegacyCommandForwardsNothing(s: LegacyState, m: Message, env: Env)
    ensures IsLegacyCommand(m) ==> !ForwardsMedia(LegacyProcess(s, m, env).effects)
  {
    if IsLegacyCommand(m) {
      LegacyCommandShortCircuits(s, m, env);
    }
  }

  // ---------------------------------------------------------------------
  // Counters and the sweep
  // ---------------------------------------------------------------------

  /**
    A status image or video changes no counter beyond the one its caption
    was logged under, and sends no log file.
  */
  lemma LegacyStatusSkipsSweep(s: LegacyState, m: Message, env: Env)
    requires m.body.Some? && !IsLegacyCommand(m)
    requires IsStatusMedia(ContextOf(m, m.body.value), m.body.value)
    ensures var ctx := ContextOf(m, m.body.value);
      var r := LegacyProcess(s, m, env);
      && r.state.counters == LegacyLogText(s, ctx, env).state.counters
      && NoLogSend(r.effects)
  {
    var b := m.body.value;
    var ctx := ContextOf(m, b);
    LegacyProcessArchive(s, m, env);
    var t := LegacyLogText(s, ctx, env);
    assert NoLogSend(t.effects);
    LegacyStatusSendsNoLog(t.state, b, ctx, env);
    NoLogSendAppend(t.effects, LegacyStatusMedia(t.state, b, ctx, env).effects);
  }

  /** The status step sends no log file. */
  lemma LegacyStatusSendsNoLog(s: LegacyState, b: Body, ctx: Context, env: Env)
    ensures NoLogSend(LegacyStatusMedia(s, b, ctx, env).effects)
  {
    if b.download.Some? {
      var data := b.download.value;
      var path := LegacyStatusFile(b, ctx, env);
      var saved := Saved(env, path);
      assert NoLogSend(SaveEffects(saved, data));
      assert NoLogSend([LegacyStatusLog(ctx, env, saved)]);
      NoLogSendAppend(SaveEffects(saved, data), [LegacyStatusLog(ctx, env, saved)]);
      var logged := SaveEffects(saved, data) + [LegacyStatusLog(ctx, env, saved)];
      if Present(s.config.backupGroup) && saved.Some? {
        var fw := [Send(s.config.backupGroup.value, MediaDocument(path.name, MimeOf(b.mimetype), data))];
        assert NoLogSend(fw);
        NoLogSendAppend(logged, fw);
      }
    }
  }

  /**
    A regular media item is counted for its chat exactly when its download
    succeeded and, with a backup group set, its file was written: a
    captioned one is then counted twice before the sweep.
  */
  lemma LegacyMediaCounting(s: LegacyState, m: Message, env: Env)
    requires m.body.Some? && !IsLegacyCommand(m)
    requires var b := m.body.value; IsMediaType(b.contentType) && !IsStatusMedia(ContextOf(m, b), b)
    ensures var b := m.body.value;
      var ctx := ContextOf(m, b);
      var key := ChatKey(ctx);
      var c := LegacyBeforeSweep(s, b, ctx, env).state.counters;
      && (LegacyMediaCounted(s, b, env) ==>
            key in c && c[key] == CountOf(s.counters, key) + if ctx.text != "" then 2 else 1)
      && (!LegacyMediaCounted(s, b, env) ==> c == LegacyLogText(s, ctx, env).state.counters)
  {
    var b := m.body.value;
    var ctx := ContextOf(m, b);
    var key := ChatKey(ctx);
    var t := LegacyLogText(s, ctx, env);
    var md := LegacyRegularMedia(t.state, b, ctx, env);
    assert LegacyBeforeSweep(s, b, ctx, env).state == md.state;
    assert LegacyMediaCounted(t.state, b, env) == LegacyMediaCounted(s, b, env);
    assert CountOf(t.state.counters, key) == CountOf(s.counters, key) + if ctx.text != "" then 1 else 0;
  }

  /**
    A regular media item whose download succeeded appends one line, and
    that log is the file the sweep sends for the counter the item bumps,
    whenever the counter key's `@g.us` suffix agrees with the chat kind.
  */
  lemma LegacyMediaLoggedToSweptFile(s: LegacyState, b: Body, ctx: Context, env: Env)
    requires IsMediaType(b.contentType) && b.download.Some?
    requires ctx.isGroup == IsGroup(ChatKey(ctx))
    ensures LogAppends(LegacyRegularMedia(s, b, ctx, env).effects) == [SweepFile(ChatKey(ctx))]
  {
    var data := b.download.value;
    var path := LegacyMediaFile(b, ctx, env);
    var saved := Saved(env, path);
    var logged := SaveEffects(saved, data) + [LegacyMediaLog(b, ctx, env, saved)];
    LoggedForwardsNothing(saved, data, LegacyMediaLog(b, ctx, env, saved));
    if env.writeOk && Present(s.config.backupGroup) {
      var fw := [Send(s.config.backupGroup.value, MediaDocument(path.name, MimeOf(b.mimetype), data))];
      assert fw[1..] == [];
      LogAppendsAppend(logged, fw);
    }
    if !ctx.isGroup {
      SanitizeBeforeAt(ctx.participant);
    }
  }

  /** A status item whose download succeeded appends one line, to the status log of its sender cut at `@`. */
  lemma LegacyStatusLogsToSender(s: LegacyState, b: Body, ctx: Context, env: Env)
    ensures LogAppends(LegacyStatusMedia(s, b, ctx, env).effects) ==
      if b.download.Some? then [LogFile(Status, Sanitize(Before(ctx.participant, '@')) + ".txt")] else []
  {
    if b.download.Some? {
      var data := b.download.value;
      var path := LegacyStatusFile(b, ctx, env);
      var saved := Saved(env, path);
      var logged := SaveEffects(saved, data) + [LegacyStatusLog(ctx, env, saved)];
      LoggedForwardsNothing(saved, data, LegacyStatusLog(ctx, env, saved));
      if env.writeOk && Present(s.config.backupGroup) {
        var fw := [Send(s.config.backupGroup.value, MediaDocument(path.name, MimeOf(b.mimetype), data))];
        assert fw[1..] == [];
        LogAppendsAppend(logged, fw);
      }
    }
  }

  /** After sweeping some distinct keys, exactly those of them that had reached the threshold are 0. */
  lemma {:induction false} LegacySweepResetsVisited(s: LegacyState, keys: seq<string>, env: Env)
    requires Distinct(keys)
    ensures var c := LegacySweep(s, keys, env).state.counters;
      forall k :: k in s.counters ==>
        c[k] == if k in keys && s.counters[k] >= Threshold(s.config) then 0 else s.counters[k]
    decreases |keys|
  {
    if keys != [] {
      var init := keys[..|keys| - 1];
      var last := keys[|keys| - 1];
      DistinctPrefix(keys, |keys| - 1);
      LegacySweepResetsVisited(s, init, env);
      assert keys == init + [last];
      assert last !in init;
      var prev := LegacySweep(s, init, env).state;
      var c := LegacySweepKey(prev, last, env).state.counters;
      assert LegacySweep(s, keys, env).state.counters == c;
      forall k | k in s.counters
        ensures c[k] == if k in keys && s.counters[k] >= Threshold(s.config) then 0 else s.counters[k]
      {
        if k == last {
          assert prev.counters[k] == s.counters[k];
        } else {
          assert (k in keys) == (k in init);
        }
      }
    }
  }

  /**
    The sweep resets every counter at or over the threshold to 0, whether
    or not its log file could be sent, and leaves the others alone.
  */
  lemma LegacySweepResetsReached(s: LegacyState, env: Env)
    requires ValidLegacy(s)
    ensures LegacySweep(s, s.order, env).state.counters == ResetReached(s.counters, Threshold(s.config))
  {
    LegacySweepResetsVisited(s, s.order, env);
  }

  /**
    Without a backup group the sweep sends nothing, yet still resets the
    counters that reached the threshold.
  */
  lemma {:induction false} LegacySweepSilentWithoutBackup(s: LegacyState, keys: seq<string>, env: Env)
    requires !Present(s.config.backupGroup)
    ensures LegacySweep(s, keys, env).effects == []
    decreases |keys|
  {
    if keys != [] {
      LegacySweepSilentWithoutBackup(s, keys[..|keys| - 1], env);
    }
  }

  /**
    With a backup group set, the log file of every distinct key that had
    reached the threshold, and whose file exists, is sent.
  */
  lemma {:induction false} LegacySweepSendsReached(s: LegacyState, keys: seq<string>, env: Env)
    requires Distinct(keys) && Present(s.config.backupGroup)
    ensures forall k :: k in keys && k in s.counters && s.counters[k] >= Threshold(s.config)
                        && SweepFile(k) in env.logFiles ==>
      Send(s.config.backupGroup.value, LogDocument(SweepFile(k))) in LegacySweep(s, keys, env).effects
    decreases |keys|
  {
    if keys != [] {
      var init := keys[..|keys| - 1];
      var last := keys[|keys| - 1];
      DistinctPrefix(keys, |keys| - 1);
      LegacySweepSendsReached(s, init, env);
      LegacySweepResetsVisited(s, init, env);
      var prev := LegacySweep(s, init, env);
      var r := LegacySweep(s, keys, env);
      assert keys == init + [last];
      forall k | k in keys && k in s.counters && s.counters[k] >= Threshold(s.config) && SweepFile(k) in env.logFiles
        ensures Send(s.config.backupGroup.value, LogDocument(SweepFile(k))) in r.effects
      {
        if k == last {
          assert last !in init;
          var lk := LegacySweepKey(prev.state, last, env);
          assert lk.effects == [Send(s.config.backupGroup.value, LogDocument(SweepFile(k)))];
          assert lk.effects[0] in r.effects;
        } else {
          assert k in init;
        }
      }
    }
  }
}
