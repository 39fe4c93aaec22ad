# WhatsApp logger: the `messages.upsert` ingestion state machine

This project models the heart of a WhatsApp logger bot: the
`messages.upsert` handler. It covers two revisions of the handler:

- **`index.mjs`, the current revision.** For every incoming message it:
  - runs an administrative command (`!setgroupbackup`, `!setowner`,
    `!menu`, `!ping`) and stops; or
  - appends the text to a per-chat log and counts it;
  - saves status and media items to disk;
  - forwards them to a backup group, through a persisted forward ledger,
    so that no message is forwarded twice and the owner's own items are
    held back;
  - sweeps the per-chat counters, sending a chat's log file to the backup
    group once its counter reaches a threshold.
- **`index.js`, the earlier revision.** It knows only `!setgroupbackup`
  (matched as a prefix), has no ledger and no owner, and forwards every
  saved item whenever a backup group is set.

Each revision is modelled twice:

- as pure functions of the handler's state, in `IngestSpec` and
  `LegacySpec`;
- as a class whose fields are that state (`Ingest.Logger`,
  `Legacy.LegacyLogger`). Its methods update the fields in place and loop
  over the batch and over the counters, as the source does. Each method is
  proved to produce exactly the state and the effects that the matching
  function prescribes.

The handler's effects on the world are returned as a list of `Effect`
values:

- a log line appended;
- a media file written;
- a send (a reply, a forwarded media document, a log document);
- `config.json` persisted;
- `data/forwarded.json` persisted.

What the world answers while a message is handled is passed in as an `Env`:

- the formatted clock and the millisecond stamp;
- the working directory;
- whether writing the media file succeeds;
- the modification time of every existing log file;
- the identity the socket reports.

A failed media download is `download == None`.

The properties are proved in `IngestProofs`, `LegacyProofs` and
`Revisions`.

Behaviour worth knowing, kept as the code has it:

- **No early owner filter.** The owner's and the bot's own messages are
  logged, saved and counted like any other. Only forwarding checks
  `participant !== (owner || BOT_ID)`.
- **Log batches need an owner.** A log batch goes out only when
  `BOT_ID !== (owner || BOT_ID)`, that is when an owner is set and differs
  from the bot.
- **The sweep sends the media log for users.** A user's text lines go to
  the log named after the whole sanitised sender id. Media lines go to the
  log of the id cut at `@`; status lines go to a log of their own under
  `logs/status`. For a user the sweep sends the cut-at-`@` file, so the
  file it sends holds only that user's media lines, not their text.
- **Keys can share a file.** Two user keys that agree up to `@` are swept
  to the same file under the same ledger marker. Within one sweep the file
  is sent once, for the first of them; the second finds its marker already
  recorded.
- **Resets do not wait for a send.** A counter at or over the threshold
  is reset to 0 whether or not its file could be sent.
- **Captioned media counts twice.** An image or video with a caption is
  counted once for the caption and once for the media.
- **A failed write is logged as `null`.** When the write of a media file
  fails, saveMedia returns `null` and the log line says `saved null`. If
  the forward gate then passes, `path.basename(null)` throws before the
  send. Nothing is forwarded, no ledger entry is recorded, and a regular
  media item is not counted.
- **No retry loop.** A media download is attempted once.
- **Threshold.** A missing or zero threshold becomes 10; a negative one is
  kept.

## Model

| member | source | states |
|---|---|---|
| Helpers.Sanitize | index.mjs:51 | The sanitised id has one character per UTF-16 code unit of the input, and every character is in `[0-9a-zA-Z@._-]` or `_` |
| Helpers.SanitizeAt | index.mjs:51 | For an id of BMP characters, each position keeps its character if it is safe and becomes `_` otherwise |
| Helpers.SanitizeKeepsSafe | index.js:40 | An id made only of safe characters is left unchanged |
| Helpers.SanitizeIdempotent | index.mjs:58 | Sanitising twice is sanitising once |
| Helpers.SanitizeAppend | index.mjs:337 | Sanitising distributes over concatenation |
| Helpers.SanitizeBeforeAt | index.mjs:338 | Cutting at the first `@` and sanitising commute |
| Helpers.SafeId | index.mjs:51 | The appendLog/saveMedia id is never empty, only holds safe characters, is `unknown` for a missing id, and otherwise keeps the input's UTF-16 length |
| Helpers.LegacyExtension | index.js:135 | The extension is the MIME type's second `/`-field, or `bin` when that is missing or empty; it is non-empty and holds no `/` |
| Helpers.Extension | index.mjs:282 | The extension is the index.js extension cut before its first `+`: a prefix of it, equal to it without `+`, followed by `+` otherwise; it holds neither `/` nor `+` |
| Helpers.SubtypeExtension | index.mjs:282 | For `type/sub` followed by nothing or by `/...`, index.js uses `sub` (or `bin` when empty) and index.mjs the same cut before `+` |
| Helpers.ResolveText | index.mjs:176 | The text is the first present, non-empty one of conversation, extended text, image caption and video caption, in that order, and empty when all are missing or empty |
| Helpers.MessageId | index.mjs:289 | The message id is used only when present and non-empty |
| Helpers.ContextOf | index.mjs:171-176 | The chat is `remoteJid` or empty, it is a group exactly when it ends in `@g.us`, the sender falls back to the chat when `participant` is missing, the push name falls back to empty, and the text and id are the resolved ones |
| Helpers.CommandName | index.mjs:180-182 | The command name holds no white space and no upper-case ASCII letter; `IngestProofs.CommandNameOfWords` gives its value |
| Helpers.ForwardAllowed | index.mjs:290 | With an owner set, only the owner's items are held back; without one, only the bot's own; with neither known, nothing is |
| Helpers.LogBatchAllowed | index.mjs:343 | Log batches are allowed exactly when an owner is set and differs from the bot id |
| Helpers.Threshold | index.mjs:332 | The threshold is never 0: it is 10 when the setting is missing or 0, and the setting otherwise |
| Helpers.SweepFile | index.mjs:336-338 | The swept file is a group log for a group key and a user log otherwise; its name is a safe base name ending in `.txt` |
| Helpers.Bump | index.mjs:268 | The key's count goes up by one, every other count stays, and the counters stay well-formed |
| JsText.Trim | index.mjs:180 | `trim` returns the slice that starts after the leading white space, has no white space at either end, and is followed only by white space |
| JsText.TrimStart | index.mjs:180 | Only leading white space is removed, and the result does not start with white space |
| JsText.TrimEnd | index.mjs:180 | Only trailing white space is removed, and the result does not end with white space |
| JsText.ToLower | index.mjs:182 | Lower-casing keeps the length and lower-cases each character as `LowerChar` states |
| JsText.LowerChar | index.mjs:182 | Each of A–Z becomes its a–z letter, KELVIN SIGN becomes `k`, every other character stays, and no upper-case ASCII letter results |
| JsText.LowerOfCaseVariant | index.mjs:182 | Any spelling of a word without capitals, with some of its ASCII letters in upper case, lower-cases to that word |
| JsText.LowerCharKeepsSpace | index.mjs:182 | Lower-casing a character neither makes nor removes white space |
| JsText.ToLowerKeepsSpace | index.mjs:182 | Lower-casing a string keeps white space exactly where it was |
| JsText.LowerOfPrefix | index.js:106 | Lower-casing a prefix gives the prefix of the lower-cased string |
| JsText.LowerTrimmedPrefix | index.js:106 | When the trimmed, lower-cased text starts with a word, the trimmed text's prefix of that length lower-cases to it |
| JsText.TrimSplit | index.js:106 | The text is its leading white space, then a prefix of its trimmed form, then the rest |
| JsText.Before | index.mjs:283 | `split(c)[0]` is the longest prefix without `c`, and is followed by `c` when `c` occurs |
| JsText.SecondField | index.mjs:282 | `split(c)[1]` is undefined exactly when `c` does not occur; otherwise it is the slice after the first `c`, holds no `c`, and ends at the next `c` or at the end |
| JsText.FirstWord | index.mjs:181 | The first word is a prefix without white space, followed by white space if it is not the whole string |
| Messages.ReadConfig | index.mjs:37 | A missing or unparsable config.json yields no backup group, no owner and threshold 10 |
| Messages.LoadLedger | index.mjs:43 | A missing or unparsable data/forwarded.json yields an empty ledger |
| IngestSpec.Startup | index.mjs:39-48 | At start the counters and their order are empty, no bot id is known, and config and ledger are the loaded ones or their defaults |
| IngestSpec.ConnectionOpen | index.mjs:152-158 | On connection the config is re-read with its backup group and threshold and the bot id learnt; an unset owner becomes the bot id and the config is persisted exactly then; counters and ledger stay |
| IngestSpec.BumpKey | index.mjs:268 | Counting changes only that key's counter and keeps the counters well-formed |
| IngestSpec.Command | index.mjs:179-261 | A command never touches counters or the ledger; it only replies to the chat or persists the config; only `setgroupbackup` and `setowner` change the config, and only `setowner` the bot id; `menu` and `ping` change nothing and send exactly one reply, to the chat; unknown names do nothing |
| IngestSpec.LogText | index.mjs:264-274 | Non-empty text appends exactly one line to the chat's log and counts exactly that chat's key; empty text does nothing |
| IngestSpec.StatusMedia | index.mjs:276-301 | A status item never changes counters; the ledger gains the message id exactly when the download and write succeed and the forward gate passes; a failed download does nothing; after a download the effects are the save (when written), the status log line, and, when written and the gate passes, the forward of the saved file to the backup group and the ledger save |
| IngestSpec.RegularMedia | index.mjs:303-329 | The ledger gains the id exactly when the item is forwarded; the chat is counted exactly when the download succeeded and the forward did not throw on a failed write; after a download the effects are the save (when written), the media log line, and, when written and the gate passes, the forward of the saved file to the backup group and the ledger save |
| IngestSpec.SweepKey | index.mjs:334-354 | A counter at the threshold is reset to 0; exactly when the file exists, a backup group is set, the marker is new and the owner guard passes, the file is sent to the backup group, its marker recorded and the ledger persisted, and nothing is emitted otherwise; counters under the threshold change nothing |
| IngestSpec.Sweep | index.mjs:332-355 | The sweep keeps config, bot id and key set; it only appends to the ledger and keeps the counters well-formed |
| IngestSpec.BeforeSweep | index.mjs:263-329 | The text and media steps never change the config or the bot id |
| IngestSpec.Archive | index.mjs:263-355 | Archiving a non-command message never changes the config or the bot id |
| IngestSpec.Process | index.mjs:168-186 | A message without content changes nothing; every message keeps the counters well-formed |
| IngestSpec.ProcessAll | index.mjs:166-167 | A batch keeps the counters well-formed |
| Ingest.Logger.constructor | index.mjs:39-48 | The logger starts in the state `Startup` describes |
| Ingest.Logger.OnConnectionOpen | index.mjs:152-158 | Updates the fields as `ConnectionOpen` prescribes |
| Ingest.Logger.BumpCounter | index.mjs:268 | Updates the counters as `BumpKey` prescribes |
| Ingest.Logger.HandleCommand | index.mjs:179-261 | Updates state and returns effects as `Command` prescribes |
| Ingest.Logger.AppendText | index.mjs:264-274 | Updates state and returns effects as `LogText` prescribes |
| Ingest.Logger.ArchiveStatus | index.mjs:276-301 | Updates state and returns effects as `StatusMedia` prescribes |
| Ingest.Logger.ArchiveMedia | index.mjs:304-329 | Updates state and returns effects as `RegularMedia` prescribes |
| Ingest.Logger.SweepCounter | index.mjs:334-354 | Handles one counter of the sweep as `SweepKey` prescribes |
| Ingest.Logger.SweepLogs | index.mjs:332-355 | The loop over a snapshot of the counter keys ends in the state and effects of `Sweep` |
| Ingest.Logger.HandleMessage | index.mjs:168-359 | Handles one message as `Process` prescribes, keeping the counters well-formed |
| Ingest.Logger.HandleUpsert | index.mjs:166-167 | Handles the batch in order as `ProcessAll` prescribes |
| IngestProofs.CommandsShortCircuit | index.mjs:179-261 | A command message writes no log, saves nothing, forwards nothing, touches no counter or ledger entry and does not sweep |
| IngestProofs.UnknownCommandIsInert | index.mjs:259-260 | An unknown command name leaves the state unchanged and has no effect |
| IngestProofs.SetGroupBackup | index.mjs:185-195 | Inside a group the chat becomes the backup group and the config is persisted; elsewhere nothing changes and the chat is warned |
| IngestProofs.SetOwner | index.mjs:197-211 | The bot id, learnt from the socket if needed, becomes the owner, is persisted and confirmed; without a bot id the config is unchanged and the chat only gets the no-bot-id error |
| IngestProofs.SetOwnerCommand | index.mjs:197-211 | The same for the `setowner` branch of the command step |
| IngestProofs.CommandNameIgnoresCase | index.mjs:182 | `!` followed by any upper/lower-case spelling of an ASCII letter word is a command named by the lower-case word |
| IngestProofs.CommandNameOfWord | index.mjs:179-182 | `!` plus one word, with any surrounding white space, is a command named by that word lower-cased |
| IngestProofs.CommandNameOfBareWord | index.mjs:179-182 | A bare `!word` is untouched by trimming and names the word lower-cased |
| IngestProofs.CommandNameOfTrimmed | index.mjs:179-182 | Any text that trims to `!` and one word is a command named by that word lower-cased |
| IngestProofs.CommandNameOfWords | index.mjs:179-182 | Text that trims to `!`, optional white space, a word and then white space and arguments is a command named by that word lower-cased |
| IngestProofs.CommandNameAfterBang | index.mjs:180-182 | For text trimming to `!` plus a rest, the command name is the lower-cased first word of the trimmed rest |
| IngestProofs.FirstWordAfterSpace | index.mjs:181 | Trimming white space, a word, then white space and arguments, and splitting on white space, gives that word |
| IngestProofs.FirstWordOfPrefix | index.mjs:181 | A word followed by nothing or by white space is the first word |
| IngestProofs.TrimAround | index.mjs:180 | Trimming white space around a word gives back the word |
| IngestProofs.ConfigOnlyChangedByCommands | index.mjs:263-355 | A message that is no command never changes the config or the bot id |
| IngestProofs.SweepKeepsLedgerDistinct | index.mjs:343-346 | The sweep only appends new markers, so a ledger without duplicates stays without |
| IngestProofs.LedgerGrowsWithoutDuplicates | index.mjs:290-293 | A message only appends to the ledger and never adds an entry already there |
| IngestProofs.BatchLedgerGrowsWithoutDuplicates | index.mjs:166-167 | A whole batch only appends to the ledger and never adds a duplicate |
| IngestProofs.SweepSendsOnlyLogs | index.mjs:332-355 | The sweep only sends log documents and persists the ledger |
| IngestProofs.ForwardEffects | index.mjs:291-293 | A forward sends exactly one media document, the saved file's name, mimetype and bytes, to the backup group, and appends to no log |
| IngestProofs.StatusMediaForwards | index.mjs:288-298 | A status item sends exactly one media document, to the backup group, with the saved file's name, the mimetype and the downloaded bytes, when the download and write succeed and the forward gate passes, and none otherwise |
| IngestProofs.RegularMediaForwards | index.mjs:315-325 | A regular media item sends exactly one media document, to the backup group, with the saved file's name, the mimetype and the downloaded bytes, when the download and write succeed and the forward gate passes, and none otherwise |
| IngestProofs.ArchiveForwards | index.mjs:276-329 | Archiving a message sends exactly one media document, the saved file to the backup group, when it is a media item whose download and write succeed and the gate passes, and none otherwise; the text step and the sweep send none |
| IngestProofs.MediaForwardedIffGate | index.mjs:276-329 | A message sends exactly one media document, to the backup group, carrying the saved file's name, the mimetype and the downloaded bytes, exactly when its download and write succeed, a backup group is set, its id is new to the ledger and the sender is not `owner \|\| BOT_ID`, and none otherwise; once forwarded, its id is in the ledger |
| IngestProofs.NeverForwardedTwice | index.mjs:290 | A message that was forwarded is never forwarded again when delivered again |
| IngestProofs.RecordedIdNeverForwarded | index.mjs:290-293 | An id already in the ledger before a batch is never forwarded by any message of that batch |
| IngestProofs.ForwardedOnceInBatch | index.mjs:166-167 | Within one batch, a message whose id was forwarded earlier in the batch is not forwarded again |
| IngestProofs.PrefixLedgerGrows | index.mjs:166-167 | The ledger after a prefix of a batch is a prefix of the ledger after the whole batch |
| IngestProofs.SweepResetsVisited | index.mjs:333-354 | After sweeping distinct keys, exactly those that had reached the threshold are 0 |
| IngestProofs.SweepResetsReached | index.mjs:332-355 | The sweep resets every counter at or over the threshold, whatever happens to its file, and leaves the others alone |
| IngestProofs.SweepAddsOnlyDueMarkers | index.mjs:339-346 | The sweep adds to the ledger only the markers of keys that reached the threshold and whose file exists |
| IngestProofs.SweepSendsReached | index.mjs:332-355 | With a backup group and the owner guard passing, every due key's marker ends up in the ledger, and the file of every due key whose marker was new is sent to the backup group |
| IngestProofs.MarkerDeterminesFile | index.mjs:336-342 | Two keys whose log files carry the same ledger marker (base name, `:`, modification time) have the same log file |
| IngestProofs.SweepNameShowsCategory | index.mjs:336-338 | A swept file's name holds an `@` exactly when the key is a group, so group and user logs never share a name |
| IngestProofs.NameBeforeColon | index.mjs:342 | A safe file name is the part of its marker before the first `:` |
| IngestProofs.SweepSilentWithoutOwner | index.mjs:339-343 | Without a backup group, or without an owner distinct from the bot, the sweep sends nothing and records no marker |
| IngestProofs.ThresholdFlush | index.mjs:264-355 | For plain text, the chat's counter rises by one and is reset to 0 when that reaches the threshold; the other counters are reset exactly when they had reached it |
| IngestProofs.TextArchiveFlush | index.mjs:264-355 | The same for the archive step of a text message |
| IngestProofs.CountersBelowThresholdAfterSweep | index.mjs:332-355 | With a positive threshold, every counter is below it after a swept message, so the N-th event resets the count and the next one starts a new count |
| IngestProofs.StatusMediaSkipsSweep | index.mjs:276-301 | A status image or video changes no counter beyond its caption's and sends no log file |
| IngestProofs.CaptionedMediaCountsTwice | index.mjs:264-329 | A captioned media item that is counted raises its chat's counter by two before the sweep |
| IngestProofs.StatusMediaLogsToSender | index.mjs:283-285 | A downloaded status item appends one line, to the status log of the sender cut at `@`, and is saved in the status folder of that same sender |
| IngestProofs.RegularMediaLogFile | index.mjs:309-313 | A downloaded media item appends one line, to the whole group id's log or the user log of the sender cut at `@`, and is saved under the group or the sender, each cut at `@` |
| IngestProofs.MediaLoggedToSweptFile | index.mjs:308-338 | The log a media item's line goes to is the file the sweep sends for the counter the item bumps, when the key's `@g.us` suffix matches the chat kind and a user id has a non-empty part before `@` |
| IngestProofs.UserSweepSendsMediaLog | index.mjs:264-338 | For a user id with `@`, text lines go to the log of the whole id and media lines to the log of the id cut at `@`; the sweep of the user's counter sends the media log, which is not the text log |
| IngestProofs.GroupSweepSendsGroupLog | index.mjs:338 | For a group key, the swept file is the group's text log |
| IngestProofs.DefaultsForwardNothing | index.mjs:37 | With the default config the threshold is 10, nothing is forwarded and no log batch is sent |
| IngestProofs.OwnerDefaultsToBot | index.mjs:158 | Once connected with a known bot id there is always an owner, and it is the bot id when config.json had none |
| LegacySpec.LegacyStartup | index.js:35-37 | At start the counters and their order are empty and the config is the loaded config.json, or the default when it cannot be read |
| LegacySpec.LegacyConnectionOpen | index.js:84-86 | On connection only the config is re-read |
| LegacySpec.LegacyBump | index.js:122 | Counting changes only that key's counter and keeps the counters well-formed |
| LegacySpec.BackupCommand | index.js:106-116 | Counters are never touched; inside a group the chat becomes the backup group and the config is persisted, elsewhere the config is unchanged; only replies or a config save are emitted |
| LegacySpec.LegacyLogText | index.js:118-128 | Non-empty text appends one line to the chat's log (without an `unknown` fallback) and counts exactly that key |
| LegacySpec.LegacyStatusMedia | index.js:130-146 | A status item never changes the state; a failed download does nothing; after a download the effects are the save (when written), the status log line, and, when written with a backup group set, the forward of the saved file to it |
| LegacySpec.LegacyRegularMedia | index.js:148-166 | The chat is counted exactly when the download succeeded and the forward did not throw on a failed write, otherwise the state is unchanged; after a download the effects are the save (when written), the media log line, and, when written with a backup group set, the forward of the saved file to it |
| LegacySpec.LegacySweepKey | index.js:169-181 | A counter at the threshold is reset to 0, and exactly one document, its log file, is sent to the backup group exactly when the file exists and a backup group is set; nothing else is emitted; counters under the threshold change nothing |
| LegacySpec.LegacySweep | index.js:168-182 | The sweep keeps the config and the key set and keeps the counters well-formed |
| LegacySpec.LegacyBeforeSweep | index.js:118-166 | The text and media steps never change the config |
| LegacySpec.LegacyArchive | index.js:118-182 | Archiving never changes the config |
| LegacySpec.LegacyProcess | index.js:97-116 | A message without content changes nothing; every message keeps the counters well-formed |
| LegacySpec.LegacyProcessAll | index.js:95 | A batch keeps the counters well-formed |
| Legacy.LegacyLogger.constructor | index.js:35-37 | The logger starts in the state `LegacyStartup` describes |
| Legacy.LegacyLogger.OnConnectionOpen | index.js:84-86 | Re-reads the config as `LegacyConnectionOpen` prescribes |
| Legacy.LegacyLogger.BumpCounter | index.js:122 | Updates the counters as `LegacyBump` prescribes |
| Legacy.LegacyLogger.HandleBackupCommand | index.js:106-116 | Updates state and returns effects as `BackupCommand` prescribes |
| Legacy.LegacyLogger.AppendText | index.js:118-128 | Updates state and returns effects as `LegacyLogText` prescribes |
| Legacy.LegacyLogger.ArchiveStatus | index.js:130-146 | Returns the effects of `LegacyStatusMedia` and changes nothing |
| Legacy.LegacyLogger.ArchiveMedia | index.js:148-166 | Updates state and returns effects as `LegacyRegularMedia` prescribes |
| Legacy.LegacyLogger.SweepCounter | index.js:169-181 | Handles one counter of the sweep as `LegacySweepKey` prescribes |
| Legacy.LegacyLogger.SweepLogs | index.js:168-182 | The loop over a snapshot of the counter keys ends in the state and effects of `LegacySweep` |
| Legacy.LegacyLogger.HandleMessage | index.js:96-186 | Handles one message as `LegacyProcess` prescribes |
| Legacy.LegacyLogger.HandleUpsert | index.js:95 | Handles the batch in order as `LegacyProcessAll` prescribes |
| LegacyProofs.PrefixIsCommand | index.js:106 | Any text whose trimmed form starts with a word lower-casing to `!setgroupbackup` is the command, so longer words and other cases match too |
| LegacyProofs.CommandIsPrefix | index.js:106 | Conversely, the command text is leading white space, then 15 characters lower-casing to `!setgroupbackup`, then anything |
| LegacyProofs.CaseVariantIsCommand | index.js:106 | Leading white space, then `!setgroupbackup` with any of its letters in upper case, then anything, is the command |
| LegacyProofs.LowerWordStartsTrimmed | index.js:106 | After leading white space, a word that lower-cases to a given word is a prefix of the trimmed, lower-cased text |
| LegacyProofs.TrimEndKeepsPrefix | index.js:106 | Trimming the end keeps a prefix that ends in a non-space |
| LegacyProofs.LegacyCommandShortCircuits | index.js:106-116 | The command never logs, counts, saves, forwards or sweeps; in a group it sets the backup group, elsewhere it changes nothing |
| LegacyProofs.OtherTextLogged | index.js:118-128 | Every other non-empty text, `!`-prefixed or not, is first logged to its chat's log |
| LegacyProofs.ShortTextIsNotLegacyCommand | index.js:106 | No text shorter than `!setgroupbackup` is the command, so `!menu`, `!ping` and `!setowner` are not commands in this revision |
| LegacyProofs.LegacyStatusForwards | index.js:140-143 | A status item sends exactly one media document, the saved file's name, mimetype and bytes, to the backup group when the download and write succeed and a backup group is set, and none otherwise |
| LegacyProofs.LegacyRegularForwards | index.js:159-162 | A media item sends exactly one media document, the saved file's name, mimetype and bytes, to the backup group when the download and write succeed and a backup group is set, and none otherwise |
| LegacyProofs.LegacySweepSendsOnlyLogs | index.js:168-182 | The sweep only sends log documents, to the backup group |
| LegacyProofs.LegacyArchiveForwards | index.js:130-166 | Archiving a message sends exactly one media document, the saved file to the backup group, when it is a media item whose download and write succeed and a backup group is set, and none otherwise |
| LegacyProofs.LegacyForwardedIffBackupGroup | index.js:130-166 | A message sends exactly one media document, the saved file's name, mimetype and bytes, to the backup group exactly when it is a media item whose download and write succeed and a backup group is set, and none otherwise; there is no ledger and no owner check |
| LegacyProofs.LegacyForwardsOnEveryReplay | index.js:159-162 | A forwarded message is forwarded again, one document with the same bytes and mimetype to the same backup group, every time it is delivered and written again |
| LegacyProofs.LegacyCommandForwardsNothing | index.js:106-116 | The command forwards no media |
| LegacyProofs.LegacyStatusSkipsSweep | index.js:130-146 | A status image or video changes no counter beyond its caption's and sends no log file |
| LegacyProofs.LegacyStatusLogsToSender | index.js:136-138 | A downloaded status item appends one line, to the status log of the sender cut at `@` |
| LegacyProofs.LegacyMediaLoggedToSweptFile | index.js:157-174 | A downloaded media item appends one line, to the file the sweep sends for the counter it bumps, when the key's `@g.us` suffix matches the chat kind |
| LegacyProofs.LegacyMediaCounting | index.js:148-166 | A counted media item raises its chat's counter by one, or by two with a caption; an uncounted one leaves only the caption's count |
| LegacyProofs.LegacySweepResetsVisited | index.js:169-181 | After sweeping distinct keys, exactly those that had reached the threshold are 0 |
| LegacyProofs.LegacySweepResetsReached | index.js:168-182 | Every counter at or over the threshold is reset whether or not its file was sent; the others stay |
| LegacyProofs.LegacySweepSilentWithoutBackup | index.js:175 | Without a backup group the sweep sends nothing |
| LegacyProofs.LegacySweepSendsReached | index.js:170-178 | With a backup group, the file of every key that reached the threshold and whose file exists is sent |
| Revisions.LongerCommandWordDiffers | index.mjs:182-185 | `!setgroupbackupnow` in a group sets the backup group in index.js but does nothing in index.mjs |
| Revisions.PlusSuffixDiffers | index.mjs:282 | For `type/sub+suffix`, index.js uses `sub+suffix` as the extension and index.mjs only `sub` |
| Revisions.ExtensionsAgreeWithoutPlus | index.js:135 | Without `+` in the MIME type both revisions use the same extension |
| Revisions.TextLoggingAgrees | index.js:118-128 | Both revisions count text under the same key and write the same line to the same file when the chat key is non-empty; with an empty key they write to `unknown.txt` and `.txt` |

## Left out

- The socket and the connection life cycle. This covers auth state, the version fetch, the QR code and reconnection by timer. Of the connection handler only the config reload, learning the bot id and the owner defaulting are modelled.
- The "bot is online" notice sent on connection: it is a send whose result is ignored and that changes no state.
- Directory bootstrap, `chmod` and `unlink`: file-system plumbing.
- `mkdirSync` failing inside saveMedia (it would throw out of the media step): not modelled.
- The `!ping` statistics (shell commands, OS figures, floating-point formatting) and the menu text. Both commands are modelled as one reply tag each (`PingReport`, and `Menu` carrying the backup group).
- File and JSON I/O. Reads come in as parameters (the loaded config and ledger, `Env.logFiles`); writes are returned as `Effect` values.
- Failed log appends, ledger saves and guarded sends: appendLog (index.mjs:54), saveForwarded (index.mjs:44) and safeSend (index.mjs:71) catch their own failures, so these change nothing in the model.
- Failed config writes: writeConfig (index.mjs:38) catches nothing, and this is not modelled. On connection (index.mjs:158) the failure escapes the connection handler after the owner was set in memory. In `!setgroupbackup` and `!setowner` (index.mjs:188, index.mjs:208) the config has already changed in memory; the failure is caught by the per-message `catch` (index.mjs:357) and the reply is skipped.
- Failed command replies: the replies at index.mjs:189, 192, 204, 209, 230 and 256 are awaited without a guard, and this is not modelled. A failure is caught by the per-message `catch` (index.mjs:357), which ends the handling of that message.
- Clocks are parameters: the formatted time, the millisecond stamp and the modification times.
- `getContentType` and the payload download are outside the model. The content type comes in the `Body`; the download result comes in as `Option`.
- `path.join` normalisation of `.`, `..` and empty path segments: a saved path is rendered as working directory + `/media/...`.
- Counter key order: keys are kept in insertion order. JavaScript lists integer-like keys first, and keys such as `__proto__` behave specially.
- Console output; the asynchronous event loop and interleaving between batches; persisted state lost on restart.
- JsText.ToLower: lower-cases only ASCII letters and KELVIN SIGN, because those are the only characters whose lower case can equal an ASCII command name; other characters keep their case.
- IngestProofs.MediaLoggedToSweptFile: holds only when the key's `@g.us` suffix agrees with the chat kind and a user id has a non-empty part before `@`; otherwise the media line goes to a different file than the one swept (an empty part is logged to `unknown.txt` and swept as `.txt`).
- Helpers.Sanitize: treats a character above U+FFFF as two UTF-16 code units (`__`); lone surrogates cannot occur in Dafny strings.
- Helpers.Threshold: the threshold is a whole number; non-numeric values and `NaN` from `Number(...)` are not modelled.
- Helpers.ResolveText: assumes every text field is a string when present, so the `typeof text === 'string'` test always holds.
- Helpers.CommandName: its own contract bounds only the characters of the name; the name itself is stated by IngestProofs.CommandNameOfWords for text of the form `!`, white space, a word, arguments.
