/**
  Where the two revisions of the handler part ways, and where they agree:
  index.mjs names its commands by their whole first word and cuts MIME
  subtypes at `+`, index.js matches `!setgroupbackup` as a prefix and keeps
  the whole subtype; both log text to the same file whenever the sender
  is known.
*/
module Revisions {

  import opened Wrappers
  import opened JsText
  import opened Messages
  import opened Helpers
  import opened IngestSpec
  import opened IngestProofs
  import opened LegacySpec
  import opened LegacyProofs

  /**
    A longer command word that index.js accepts as `!setgroupbackup`, such
    as `!setgroupbackupnow`, sent in a group: index.js makes the group the
    backup group; index.mjs reads a command name it does not know and does
    nothing at all.
  */
  lemma LongerCommandWordDiffers(s: State, ls: LegacyState, m: Message, env: Env, w: string)
    requires m.body.Some? && ResolveText(m.body.value) == "!" + w
    requires IsGroup(OrElse(m.key.remoteJid, ""))
    requires |w| > |"setgroupbackup"| && forall i :: 0 <= i < |w| ==> !IsSpace(w[i])
    requires StartsWith(ToLower("!" + w), "!setgroupbackup")
    ensures Process(s, m, env) == Step(s, [])
    ensures LegacyProcess(ls, m, env).state.config.backupGroup == Some(OrElse(m.key.remoteJid, ""))
  {
    LongerWordTexts(w);
    UnknownCommandIsInert(s, m, env);
    LegacyCommandShortCircuits(ls, m, env);
  }

  /** `!` and the longer word: an unknown command name for index.mjs, the command for index.js. */
  lemma LongerWordTexts(w: string)
    requires |w| > |"setgroupbackup"| && forall i :: 0 <= i < |w| ==> !IsSpace(w[i])
    requires StartsWith(ToLower("!" + w), "!setgroupbackup")
    ensures IsCommandText("!" + w)
    ensures CommandName("!" + w) !in {"setgroupbackup", "setowner", "menu", "ping"}
    ensures IsBackupCommandText("!" + w)
  {
    CommandNameOfBareWord(w);
    LongerThanKnownNames(CommandName("!" + w));
  }

  /** A name longer than `setgroupbackup` is none of the index.mjs command names. */
  lemma LongerThanKnownNames(n: string)
    requires |n| > |"setgroupbackup"|
    ensures n !in {"setgroupbackup", "setowner", "menu", "ping"}
  {
  }

  /**
    The `+` cut: for a MIME type `type/sub+suffix` index.js uses
    `sub+suffix` as the extension and index.mjs only `sub`, so
    `image/svg+xml` is saved as `.svg+xml` by one and `.svg` by the other.
  */
  lemma PlusSuffixDiffers(t: string, sub: string, suffix: string)
    requires '/' !in t && '/' !in sub && '/' !in suffix && '+' !in sub
    ensures LegacyExtension(t + "/" + sub + "+" + suffix) == sub + "+" + suffix
    ensures Extension(t + "/" + sub + "+" + suffix) == sub
  {
    PlusMimeRegroups(t, sub, suffix);
    SubtypeExtension(t, sub + "+" + suffix, []);
    PlusCutsSubtype(sub, suffix);
  }

  /** `type/sub+suffix` read as `type`, `/` and the subtype `sub+suffix`. */
  lemma PlusMimeRegroups(t: string, sub: string, suffix: string)
    requires '/' !in sub && '/' !in suffix
    ensures t + "/" + sub + "+" + suffix == t + "/" + (sub + "+" + suffix) + []
    ensures '/' !in sub + "+" + suffix && sub + "+" + suffix != ""
  {
  }

  /** Cutting `sub+suffix` at its first `+` gives `sub`. */
  lemma PlusCutsSubtype(sub: string, suffix: string)
    requires '+' !in sub
    ensures Before(sub + "+" + suffix, '+') == sub
  {
    assert sub + "+" + suffix == sub + ("+" + suffix);
    BeforeAfterNoSep(sub, "+" + suffix, '+');
  }

  /** Without a `+` in the MIME subtype both revisions use the same extension. */
  lemma ExtensionsAgreeWithoutPlus(mime: string)
    requires '+' !in mime
    ensures Extension(mime) == LegacyExtension(mime)
  {
  }

  /**
    For a message whose text both revisions log, they write the same line
    to the same file and count it under the same key whenever the chat key
    is not empty; with an empty key index.mjs writes to `unknown.txt` and
    index.js to `.txt`.
  */
  lemma TextLoggingAgrees(s: State, ls: LegacyState, ctx: Context, env: Env)
    requires ctx.text != "" && s.counters == ls.counters
    ensures var r := LogText(s, ctx, env);
      var lr := LegacyLogText(ls, ctx, env);
      && r.state.counters == lr.state.counters
      && (ChatKey(ctx) != "" ==> r.effects == lr.effects)
      && (ChatKey(ctx) == "" ==> r.effects[0].file.name == "unknown.txt" && lr.effects[0].file.name == ".txt")
  {
  }
}
