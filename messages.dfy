/**
  The values that flow through the `messages.upsert` handler: the persisted
  configuration, the decoded message as the transport delivers it, what the
  environment answers (clock, file system), and the effects the handler has
  on the world (log appends, media files, outbound sends, persistence).
*/
module Messages {

  import opened Wrappers

  type Bytes = seq<bv8>

  /**
    config.json. Every field may be missing from the file, so every field is
    optional; `logSendThreshold` is a whole number in this model.
  */
  datatype Config = Config(backupGroup: Option<string>, owner: Option<string>, logSendThreshold: Option<int>)

  /** The configuration `readConfig` falls back to. */
  const DefaultConfig := Config(None, None, Some(10))

  /**
    readConfig: the parsed file, or the defaults when the file is missing or
    is not valid JSON (`loaded == None`); the parse error is swallowed.
  */
  function ReadConfig(loaded: Option<Config>): (c: Config)
    ensures loaded.None? ==> c.backupGroup.None? && c.owner.None? && c.logSendThreshold == Some(10)
    ensures loaded.Some? ==> c == loaded.value
  {
    match loaded
    case Some(c) => c
    case None => DefaultConfig
  }

  /** loadForwarded: the `forwarded` array of data/forwarded.json, or an empty ledger. */
  function LoadLedger(loaded: Option<seq<string>>): (l: seq<string>)
    ensures loaded.None? ==> l == []
    ensures loaded.Some? ==> l == loaded.value
  {
    match loaded
    case Some(l) => l
    case None => []
  }

  /** The key `getContentType` reports for a message; `OtherContent` is every other key. */
  datatype ContentType =
    | Conversation | ExtendedText
    | Image | Video | Audio | Document | ViewOnceV2
    | OtherContent

  predicate IsMediaType(t: ContentType) {
    t.Image? || t.Video? || t.Audio? || t.Document? || t.ViewOnceV2?
  }

  /** The content-type key as written in a media log line. */
  function TypeName(t: ContentType): string
    requires IsMediaType(t)
  {
    match t
    case Image => "imageMessage"
    case Video => "videoMessage"
    case Audio => "audioMessage"
    case Document => "documentMessage"
    case ViewOnceV2 => "viewOnceMessageV2"
  }

  /** `contentType.replace('Message', '')`, the prefix of a saved media file's name. */
  function MediaPrefix(t: ContentType): string
    requires IsMediaType(t)
  {
    match t
    case Image => "image"
    case Video => "video"
    case Audio => "audio"
    case Document => "document"
    case ViewOnceV2 => "viewOnceV2"
  }

  /** `msg.key`. */
  datatype Key = Key(remoteJid: Option<string>, participant: Option<string>, id: Option<string>)

  /**
    `msg.message`: its content type, the four fields the text is taken from
    (conversation, extendedTextMessage.text, imageMessage.caption,
    videoMessage.caption), the mimetype of the typed sub-message, and what
    `downloadMediaMessage` gives (`None` when it throws).
  */
  datatype Body = Body(
    contentType: ContentType,
    conversation: Option<string>,
    extendedText: Option<string>,
    imageCaption: Option<string>,
    videoCaption: Option<string>,
    mimetype: Option<string>,
    download: Option<Bytes>)

  /** One entry of the `messages` array; `body == None` is a message without content. */
  datatype Message = Message(key: Key, pushName: Option<string>, body: Option<Body>)

  datatype Category = User | Group | Status

  /** A file `logs/{users|groups|status}/<name>`. */
  datatype LogFile = LogFile(category: Category, name: string)

  /** A file `media/{users|groups|status}/<safeId>/<name>`. */
  datatype MediaPath = MediaPath(category: Category, safeId: string, name: string)

  function Folder(c: Category): string {
    match c
    case User => "users"
    case Group => "groups"
    case Status => "status"
  }

  /**
    What the environment answers while one message is handled: the
    formatted clock (`time`), the millisecond clock used in media file names
    (`stamp`), the working directory, whether writing a media file
    succeeds, the modification time of every existing log file at sweep
    time, and the identity the socket reports for the account.
  */
  datatype Env = Env(
    time: string,
    stamp: string,
    cwd: string,
    writeOk: bool,
    logFiles: map<LogFile, string>,
    sockBotId: Option<string>)

  /** The chat replies of the administrative commands. */
  datatype Reply =
    | BackupSet
    | UseInsideGroup
    | OwnerSet(botId: string)
    | NoBotId
    | Menu(backupGroup: string)
    | PingReport

  datatype Outbound =
    | Reply(reply: Reply)
    | MediaDocument(fileName: string, mimetype: string, data: Bytes)
    | LogDocument(file: LogFile)

  datatype Effect =
    | AppendLog(file: LogFile, line: string)
    | SaveMedia(path: MediaPath, data: Bytes)
    | Send(to: string, what: Outbound)
    | PersistConfig
    | PersistLedger

  /** Whether an effect list holds a forward of a live media item. */
  predicate ForwardsMedia(effects: seq<Effect>) {
    exists e :: e in effects && e.Send? && e.what.MediaDocument?
  }

  /** The media documents an effect list sends, in order. */
  function MediaSends(effects: seq<Effect>): (r: seq<Effect>)
    ensures |r| <= |effects|
    ensures forall i :: 0 <= i < |r| ==> r[i].Send? && r[i].what.MediaDocument?
  {
    if effects == [] then []
    else
      var e := effects[0];
      (if e.Send? && e.what.MediaDocument? then [e] else []) + MediaSends(effects[1..])
  }

  /** The log files an effect list appends to, in order. */
  function LogAppends(effects: seq<Effect>): (r: seq<LogFile>)
    ensures |r| <= |effects|
    ensures forall i :: 0 <= i < |effects| && effects[i].AppendLog? ==> effects[i].file in r
    ensures forall f :: f in r ==> exists i :: 0 <= i < |effects| && effects[i].AppendLog? && effects[i].file == f
  {
    if effects == [] then []
    else
      var e := effects[0];
      (if e.AppendLog? then [e.file] else []) + LogAppends(effects[1..])
  }

  /** The media documents of two effect lists: those of the first, then those of the second. */
  lemma {:induction false} MediaSendsAppend(a: seq<Effect>, b: seq<Effect>)
    ensures MediaSends(a + b) == MediaSends(a) + MediaSends(b)
  {
    if a == [] {
      assert a + b == b;
    } else {
      assert (a + b)[0] == a[0] && (a + b)[1..] == a[1..] + b;
      MediaSendsAppend(a[1..], b);
    }
  }

  /** An effect list forwards media exactly when it sends some media document. */
  lemma {:induction false} ForwardsMediaIffSends(effects: seq<Effect>)
    ensures ForwardsMedia(effects) <==> MediaSends(effects) != []
  {
    if effects != [] {
      var e := effects[0];
      ForwardsMediaIffSends(effects[1..]);
      if ForwardsMedia(effects) && !(e.Send? && e.what.MediaDocument?) {
        var x :| x in effects && x.Send? && x.what.MediaDocument?;
        assert x in effects[1..];
      }
      if ForwardsMedia(effects[1..]) {
        var x :| x in effects[1..] && x.Send? && x.what.MediaDocument?;
        assert x in effects;
      }
    }
  }

  /** The log files two effect lists append to: those of the first, then those of the second. */
  lemma {:induction false} LogAppendsAppend(a: seq<Effect>, b: seq<Effect>)
    ensures LogAppends(a + b) == LogAppends(a) + LogAppends(b)
  {
    if a == [] {
      assert a + b == b;
    } else {
      assert (a + b)[0] == a[0] && (a + b)[1..] == a[1..] + b;
      LogAppendsAppend(a[1..], b);
    }
  }
}
