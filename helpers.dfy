/**
  The pure helpers both revisions of the handler share: identifier
  sanitising, media extensions, text resolution, command recognition,
  chat classification, the forwarding guards, the sweep threshold and the
  per-identity counters.
*/
module Helpers {

  import opened Wrappers
  import opened JsText
  import opened Messages

  // ---------------------------------------------------------------------
  // Identifier sanitising: `.replace(/[^0-9a-zA-Z@._-]/g, '_')`
  // ---------------------------------------------------------------------

  /** The characters the sanitising regular expression keeps. */
  predicate IsSafeChar(c: char) {
    ('0' <= c <= '9') || ('a' <= c <= 'z') || ('A' <= c <= 'Z')
    || c == '@' || c == '.' || c == '_' || c == '-'
  }

  predicate AllSafe(s: string) {
    forall i :: 0 <= i < |s| ==> IsSafeChar(s[i])
  }

  /** Whether every character lies in the Basic Multilingual Plane (one UTF-16 code unit each). */
  predicate IsBmp(s: string) {
    forall i :: 0 <= i < |s| ==> s[i] as int < 0x1_0000
  }

  /** The length JavaScript reports: characters outside the BMP are two code units. */
  function Utf16Length(s: string): nat {
    if s == [] then 0 else (if s[0] as int < 0x1_0000 then 1 else 2) + Utf16Length(s[1..])
  }

  /**
    The regular expression has no `u` flag, so it replaces UTF-16 code units:
    a character outside the BMP, a surrogate pair, becomes two underscores.
  */
  function SanitizeChar(c: char): string {
    if IsSafeChar(c) then [c]
    else if c as int < 0x1_0000 then "_"
    else "__"
  }

  /** The sanitised form keeps the UTF-16 length and holds only safe characters. */
  function Sanitize(s: string): (r: string)
    ensures |r| == Utf16Length(s)
    ensures AllSafe(r)
  {
    if s == [] then [] else SanitizeChar(s[0]) + Sanitize(s[1..])
  }

  /** A string of safe characters is its own sanitised form. */
  lemma {:induction false} SanitizeKeepsSafe(s: string)
    requires AllSafe(s)
    ensures Sanitize(s) == s
  {
    if s != [] {
      assert AllSafe(s[1..]) by {
        forall i | 0 <= i < |s[1..]| ensures IsSafeChar(s[1..][i]) {
          assert s[1..][i] == s[i + 1];
        }
      }
      SanitizeKeepsSafe(s[1..]);
    }
  }

  /** Sanitising twice is sanitising once. */
  lemma SanitizeIdempotent(s: string)
    ensures Sanitize(Sanitize(s)) == Sanitize(s)
  {
    SanitizeKeepsSafe(Sanitize(s));
  }

  /**
    On a string of BMP characters sanitising works position by position:
    the length is kept, a safe character stays, any other becomes `_`.
  */
  lemma {:induction false} SanitizeAt(s: string, i: int)
    requires IsBmp(s) && 0 <= i < |s|
    ensures |Sanitize(s)| == |s|
    ensures Sanitize(s)[i] == if IsSafeChar(s[i]) then s[i] else '_'
  {
    assert IsBmp(s[1..]) by {
      forall j | 0 <= j < |s[1..]| ensures s[1..][j] as int < 0x1_0000 {
        assert s[1..][j] == s[j + 1];
      }
    }
    if i == 0 {
      if |s| > 1 {
        SanitizeAt(s[1..], 0);
      } else {
        assert s[1..] == [];
      }
    } else {
      SanitizeAt(s[1..], i - 1);
    }
  }

  /** Sanitising distributes over concatenation. */
  lemma {:induction false} SanitizeAppend(a: string, b: string)
    ensures Sanitize(a + b) == Sanitize(a) + Sanitize(b)
  {
    if a == [] {
      assert a + b == b;
    } else {
      assert (a + b)[0] == a[0];
      assert (a + b)[1..] == a[1..] + b;
      SanitizeAppend(a[1..], b);
    }
  }

  /** `@` is a safe character, so cutting at the first `@` commutes with sanitising. */
  lemma {:induction false} SanitizeBeforeAt(s: string)
    ensures Sanitize(Before(s, '@')) == Before(Sanitize(s), '@')
  {
    if s != [] {
      var head := SanitizeChar(s[0]);
      assert Sanitize(s) == head + Sanitize(s[1..]);
      if s[0] == '@' {
        assert Before(Sanitize(s), '@') == [];
      } else {
        SanitizeBeforeAt(s[1..]);
        assert Before(s, '@') == [s[0]] + Before(s[1..], '@');
        SanitizeAppend([s[0]], Before(s[1..], '@'));
        assert Sanitize([s[0]]) == head by {
          assert [s[0]][1..] == [];
        }
        BeforeAfterNoSep(head, Sanitize(s[1..]), '@');
      }
    }
  }

  /** Cutting at the first `c` skips a prefix that holds no `c`. */
  lemma {:induction false} BeforeAfterNoSep(a: string, b: string, c: char)
    requires c !in a
    ensures Before(a + b, c) == a + Before(b, c)
  {
    if a == [] {
      assert a + b == b;
    } else {
      assert (a + b)[0] == a[0];
      assert (a + b)[1..] == a[1..] + b;
      BeforeAfterNoSep(a[1..], b, c);
    }
  }

  /**
    The id sanitising of appendLog and saveMedia in index.mjs: a missing or
    empty id becomes `unknown`; the result is never empty and only holds
    safe characters.
  */
  function SafeId(id: string): (r: string)
    ensures r != [] && AllSafe(r)
    ensures id == "" ==> r == "unknown"
    ensures |r| == if id == "" then 7 else Utf16Length(id)
  {
    var r := Sanitize(if id == "" then "unknown" else id);
    assert id == "" ==> r == "unknown" by {
      if id == "" {
        SanitizeKeepsSafe("unknown");
      }
    }
    r
  }

  /** `(x || 'unknown')` for a participant string. */
  function OrUnknown(p: string): string {
    if p == "" then "unknown" else p
  }

  // ---------------------------------------------------------------------
  // Media extensions
  // ---------------------------------------------------------------------

  /** `mimetype || 'application/octet-stream'`. */
  function MimeOf(mimetype: Option<string>): string {
    OrElse(mimetype, "application/octet-stream")
  }

  /**
    index.js: `mime.split('/')[1] || 'bin'`, the MIME subtype (up to a
    second `/`), or `bin` when there is none.
  */
  function LegacyExtension(mime: string): (r: string)
    ensures r != [] && '/' !in r
    ensures '/' !in mime ==> r == "bin"
    ensures '/' in mime ==> var sub := SecondField(mime, '/').value; r == if sub == "" then "bin" else sub
  {
    OrElse(SecondField(mime, '/'), "bin")
  }

  /**
    index.mjs: the same subtype cut at its first `+`, so it holds neither
    `/` nor `+`; it is a prefix of the index.js extension, and equal to it
    when that has no `+`.
  */
  function Extension(mime: string): (r: string)
    ensures '/' !in r && '+' !in r
    ensures r <= LegacyExtension(mime)
    ensures '+' !in LegacyExtension(mime) ==> r == LegacyExtension(mime)
    ensures '+' in LegacyExtension(mime) ==> LegacyExtension(mime)[|r|] == '+'
  {
    Before(LegacyExtension(mime), '+')
  }

  /**
    For a MIME type `type/sub`, possibly followed by `/...`, index.js uses
    `sub` as the extension (`bin` when it is empty) and index.mjs the same
    cut at its first `+`: `image/jpeg` gives `jpeg`, `image/` gives `bin`.
  */
  lemma SubtypeExtension(t: string, sub: string, rest: string)
    requires '/' !in t && '/' !in sub
    requires rest == [] || rest[0] == '/'
    ensures var ext := if sub == "" then "bin" else sub;
      && LegacyExtension(t + "/" + sub + rest) == ext
      && Extension(t + "/" + sub + rest) == Before(ext, '+')
  {
    var mime := t + "/" + sub + rest;
    var tail := sub + rest;
    assert mime == t + ("/" + tail);
    BeforeAfterNoSep(t, "/" + tail, '/');
    assert Before(mime, '/') == t;
    assert mime[|t| + 1..] == tail;
    BeforeAfterNoSep(sub, rest, '/');
    assert Before(rest, '/') == [];
  }

  // ---------------------------------------------------------------------
  // The message as the handler sees it
  // ---------------------------------------------------------------------

  /**
    The text of a message: the first non-empty of the conversation, the
    extended text, the image caption and the video caption, else empty.
  */
  function ResolveText(b: Body): (r: string)
    ensures r == "" <==> !Present(b.conversation) && !Present(b.extendedText)
                         && !Present(b.imageCaption) && !Present(b.videoCaption)
    ensures r != "" ==> Some(r) in [b.conversation, b.extendedText, b.imageCaption, b.videoCaption]
    ensures Present(b.conversation) ==> r == b.conversation.value
    ensures !Present(b.conversation) && Present(b.extendedText) ==> r == b.extendedText.value
    ensures !Present(b.conversation) && !Present(b.extendedText) && Present(b.imageCaption) ==>
      r == b.imageCaption.value
    ensures !Present(b.conversation) && !Present(b.extendedText) && !Present(b.imageCaption) ==>
      r == OrElse(b.videoCaption, "")
  {
    OrElse(b.conversation, OrElse(b.extendedText, OrElse(b.imageCaption, OrElse(b.videoCaption, ""))))
  }

  /** `remote.endsWith('@g.us')`. */
  predicate IsGroup(remote: string) {
    EndsWith(remote, "@g.us")
  }

  /** `remote === 'status@broadcast' || (remote && remote.includes('status'))`. */
  predicate IsStatus(remote: string) {
    remote == "status@broadcast" || (remote != "" && Contains(remote, "status"))
  }

  /** `msg.key.id`, when it is a non-empty string. */
  function MessageId(k: Key): (r: Option<string>)
    ensures r.Some? ==> r.value != "" && k.id == r
    ensures r.None? ==> !Present(k.id)
  {
    if Present(k.id) then k.id else None
  }

  /** What the handler derives from a message before it branches. */
  datatype Context = Context(
    remote: string,
    isGroup: bool,
    participant: string,
    pushName: string,
    text: string,
    id: Option<string>)

  /**
    `remote` is `remoteJid || ''`, a group chat is one ending in `@g.us`,
    the sender is `participant || remote` (so a direct chat's sender is the
    chat itself), `pushName || ''`, the resolved text and the message id.
  */
  function ContextOf(m: Message, b: Body): (c: Context)
    ensures c.remote == OrElse(m.key.remoteJid, "") && c.isGroup == IsGroup(c.remote)
    ensures c.pushName == OrElse(m.pushName, "")
    ensures c.text == ResolveText(b) && c.id == MessageId(m.key)
    ensures c.participant == "" ==> !Present(m.key.participant) && c.remote == ""
    ensures Present(m.key.participant) ==> c.participant == m.key.participant.value
    ensures !Present(m.key.participant) ==> c.participant == c.remote
    ensures c.isGroup ==> c.remote != ""
  {
    var remote := OrElse(m.key.remoteJid, "");
    Context(remote, IsGroup(remote), OrElse(m.key.participant, remote),
            OrElse(m.pushName, ""), ResolveText(b), MessageId(m.key))
  }

  /** The counter key of a chat: the group itself, or the sender. */
  function ChatKey(ctx: Context): string {
    if ctx.isGroup then ctx.remote else ctx.participant
  }

  /** A status image or video. */
  predicate IsStatusMedia(ctx: Context, b: Body) {
    IsStatus(ctx.remote) && (b.contentType.Image? || b.contentType.Video?)
  }

  /** A user or group log line: `[time] pushName (participant): text`. */
  function TextLine(time: string, pushName: string, participant: string, text: string): string {
    "[" + time + "] " + pushName + " (" + participant + "): " + text
  }

  /** A saved file's path as written into a log line; a failed write is logged as `null`. */
  function PathText(env: Env, saved: Option<MediaPath>): string {
    match saved
    case None => "null"
    case Some(p) => env.cwd + "/media/" + Folder(p.category) + "/" + p.safeId + "/" + p.name
  }

  /** Where saveMedia writes, or `None` when the write fails (saveMedia then returns null). */
  function Saved(env: Env, p: MediaPath): Option<MediaPath> {
    if env.writeOk then Some(p) else None
  }

  /** The save effect, present only when the file was written. */
  function SaveEffects(saved: Option<MediaPath>, data: Bytes): seq<Effect> {
    match saved
    case Some(p) => [SaveMedia(p, data)]
    case None => []
  }

  // ---------------------------------------------------------------------
  // Commands
  // ---------------------------------------------------------------------

  /** `text.trim().startsWith('!')`. */
  predicate IsCommandText(text: string) {
    StartsWith(Trim(text), "!")
  }

  /**
    index.mjs: the command name is the first word after the `!` of the
    trimmed text, lower-cased. It holds no white space and no upper-case
    ASCII letter.
  */
  function CommandName(text: string): (name: string)
    requires IsCommandText(text)
    ensures forall i :: 0 <= i < |name| ==> !IsSpace(name[i]) && !('A' <= name[i] <= 'Z')
  {
    var w := FirstWord(Trim(Trim(text)[1..]));
    ToLowerKeepsSpace(w);
    ToLower(w)
  }

  /** index.js: the only command, recognised by a prefix of the trimmed, lower-cased text. */
  predicate IsBackupCommandText(text: string) {
    StartsWith(ToLower(Trim(text)), "!setgroupbackup")
  }

  // ---------------------------------------------------------------------
  // Owner and self filtering
  // ---------------------------------------------------------------------

  /** `config.owner || BOT_ID`. */
  function OwnerOrBot(c: Config, botId: Option<string>): Option<string> {
    if Present(c.owner) then c.owner else botId
  }

  /**
    `participant !== (config.owner || BOT_ID)`: with an owner set only the
    owner's items are held back; with none, only the bot's own; with neither
    known, nothing is.
  */
  predicate ForwardAllowed(c: Config, botId: Option<string>, participant: string)
    ensures ForwardAllowed(c, botId, participant) <==>
      if Present(c.owner) then participant != c.owner.value
      else botId.None? || botId.value != participant
  {
    Some(participant) != OwnerOrBot(c, botId)
  }

  /**
    `BOT_ID !== (config.owner || BOT_ID)`: log batches go out only when an
    owner is set and it is not the bot's own id.
  */
  predicate LogBatchAllowed(c: Config, botId: Option<string>)
    ensures LogBatchAllowed(c, botId) <==> Present(c.owner) && botId != Some(c.owner.value)
  {
    botId != OwnerOrBot(c, botId)
  }

  // ---------------------------------------------------------------------
  // Counters and the threshold sweep
  // ---------------------------------------------------------------------

  /**
    `(config.logSendThreshold && Number(config.logSendThreshold)) || 10`:
    never zero; 10 when the setting is missing or zero, the setting otherwise.
  */
  function Threshold(c: Config): (t: int)
    ensures t != 0
    ensures c.logSendThreshold.None? || c.logSendThreshold == Some(0) ==> t == 10
    ensures c.logSendThreshold.Some? && c.logSendThreshold.value != 0 ==> t == c.logSendThreshold.value
  {
    match c.logSendThreshold
    case None => 10
    case Some(n) => if n == 0 then 10 else n
  }

  /**
    The log file the sweep sends for a counter key: the group log named
    after the whole sanitised key for a group, otherwise the user log named
    after the sanitised key cut at its first `@`. Its name is a base name
    ending in `.txt`.
  */
  function SweepFile(key: string): (f: LogFile)
    ensures f.category == if IsGroup(key) then Group else User
    ensures '/' !in f.name && EndsWith(f.name, ".txt")
    ensures AllSafe(f.name)
  {
    var safeKey := Sanitize(key);
    var stem := if IsGroup(key) then safeKey else Before(safeKey, '@');
    var name := stem + ".txt";
    assert AllSafe(name) by {
      forall i | 0 <= i < |name| ensures IsSafeChar(name[i]) {
        if i < |stem| {
          assert name[i] == stem[i];
          assert stem <= safeKey;
          assert stem[i] == safeKey[i];
        }
      }
    }
    assert !IsSafeChar('/');
    assert name[|name| - 4..] == ".txt";
    LogFile(if IsGroup(key) then Group else User, name)
  }

  /** The value of a counter, `logCounters[key] || 0`. */
  function CountOf(counters: map<string, int>, key: string): int {
    if key in counters then counters[key] else 0
  }

  predicate Distinct(s: seq<string>) {
    forall i, j :: 0 <= i < j < |s| ==> s[i] != s[j]
  }

  /**
    The counters object: `order` lists its keys once each, in insertion
    order, and every count is non-negative.
  */
  predicate ValidCounters(counters: map<string, int>, order: seq<string>) {
    Distinct(order)
    && (forall k :: k in order ==> k in counters)
    && (forall k :: k in counters ==> k in order)
    && (forall k :: k in counters ==> counters[k] >= 0)
  }

  /** `logCounters[key] = (logCounters[key] || 0) + 1`, with a new key appended to the order. */
  function Bump(counters: map<string, int>, order: seq<string>, key: string): (r: (map<string, int>, seq<string>))
    ensures r.0.Keys == counters.Keys + {key}
    ensures r.0[key] == CountOf(counters, key) + 1
    ensures forall k :: k in counters && k != key ==> r.0[k] == counters[k]
    ensures ValidCounters(counters, order) ==> ValidCounters(r.0, r.1)
  {
    (counters[key := CountOf(counters, key) + 1], if key in counters then order else order + [key])
  }
}
