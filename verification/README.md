# Slack2discord, modelled in Dafny

Slack2discord replays a Slack workspace export into Discord channels. Two
pure pipelines sit inside the replayer, and this project models them as
functions over in-memory data:

- **Ingestion** (`Engine`, `app/S2D_Engine.py`):
  - `getUsers` builds the author directory. The first record seen for an id wins.
  - `getData` filters out system and bot records and decodes three HTML entities.
  - It resolves each author against the directory. An unknown author is fatal.
  - It shapes each record into a text message or a file message, then sorts each channel stably by timestamp.
- **Message transformation** (`DiscordClient`, `app/API_Discord.py`):
  - `splitMessage` cuts long texts at periods and ends with a hard cut.
  - `createEmbed` titles only the first post of a message.
  - `getFile` names an attachment after its URL and decides between re-uploading it and posting an oversize notice.
  - `addMessage` fixes the order of one message's sends.

The modules follow the program:

| module | file | models |
|---|---|---|
| `Base` | base.dfy | `Option`, `Result`, `Min` |
| `Text` | text.dfy | Python's `in`, `find`, `split(...)[0]`, `replace` and `join` on strings |
| `SlackExport` | slack_export.dfy | export records with optional keys, channel exports, users, normalised messages, errors |
| `UserDirectory` | user_directory.dfy | `getUsers` |
| `Entities` | entities.dfy | the `&amp;` / `&gt;` / `&lt;` decoding of `getData` |
| `TimeOrder` | time_order.dfy | the stable `list.sort(key=time)` |
| `Ingest` | ingest.dfy | `getData` and the engine's start-up order |
| `MessageSplit` | message_split.dfy | `splitMessage` |
| `DiscordApi` | discord_api.dfy | `createEmbed`, `getFile`, `addMessage` as a sequence of `Action`s |

Conventions of the model:

- A JSON key that the source reads with `message[...]`, without first testing for it, is an `Option` field. A missing key is an `Err`, as the Python `KeyError` or `IndexError` aborts the run.
- A timestamp is an `int`. Only its order matters.
- Every send to Discord is an `Action`:
  - `TitledPost`: an embed with title and author.
  - `ContinuationPost`: an embed without them.
  - `Upload`: an attachment re-uploaded.
  - `OversizeNotice`: the warning embed posted instead of an attachment that is too large.
  - `Divider`: the divider image.
- A `Run` is the actions performed, together with the error that stopped them, if any.
- The `content-length` that `requests.head` reports is the parameter `probe: string -> int`. A missing header is `-1`, as in the source.

`splitMessage` is modelled exactly as written, including the text it loses.
Its last chunk is the hard cut `message[:length-1]`. The loop then stops, so
everything from index `length - 1` of the final remainder onwards is dropped.
`MessageSplit.Lost` names that tail, and `MessageSplit.SplitThenJoin` shows it
is the only text missing.

Entity decoding is not the inverse of the exporter's escaping. Only the
`&amp;` step undoes its own escaping (`Entities.ReplaceUndoesEscape`). The
later steps also decode what the first step produced: a literal `&gt;` in the
original text is exported as `&amp;gt;` and comes back as `>`
(`Entities.AmpersandFirstDecodesTwice`).

## Model

| member | source | states |
|---|---|---|
| UserDirectory.BuildFrom | app/S2D_Engine.py:104-110 | the scan only adds ids: every id already listed stays, with its entry unchanged |
| UserDirectory.BuildFromFirstSeenWins | app/S2D_Engine.py:105-110 | after a scan an id is listed iff it was listed before or some record without `subtype` and with `user_profile` carries it; a new id gets the `real_name`/`image_72` of the first such record |
| UserDirectory.AddUser | app/S2D_Engine.py:105-110 | one record raises iff it contributes, is malformed, and has no `user` or an id not yet listed; otherwise it adds only its own id when it contributes and the id is new, with its `real_name`/`image_72`, and every listed entry stays |
| UserDirectory.GetUsers | app/S2D_Engine.py:93-111 | the directory of a whole export holds exactly the ids of contributing records, each with the entry of its first contributing record (`GetUsersFails` states when it raises) |
| UserDirectory.BuildFromFails | app/S2D_Engine.py:105-110 | a scan fails iff some contributing record has no `user`, or is the first contributing record of an id not yet listed and lacks `real_name` or `image_72`; a malformed later record for a listed id is never read |
| UserDirectory.FatalShift | app/S2D_Engine.py:105-110 | once the scan has accepted a record, whether a later record raises depends only on the directory it left |
| UserDirectory.GetUsersFails | app/S2D_Engine.py:99-111 | `getUsers` fails iff some record of the export is fatal for the scan from an empty directory |
| UserDirectory.MissingUserIdIsFatal | app/S2D_Engine.py:106-107 | a record with `user_profile` but no `user` aborts the scan wherever it stands |
| UserDirectory.LaterRecordLeavesEntry | app/S2D_Engine.py:107-110 | a later record for an id already listed changes nothing |
| UserDirectory.BuildFromAppend | app/S2D_Engine.py:100-110 | scanning the files one after the other is scanning their concatenation |
| UserDirectory.BotWithProfileIsListed | app/S2D_Engine.py:105-106 | `bot_id` does not exclude a record from the directory |
| Entities.DecodeEntities | app/S2D_Engine.py:78 | decoding never lengthens the text |
| Entities.DecodeWithoutAmpersand | app/S2D_Engine.py:78 | a text without `&` is left unchanged |
| Entities.ReplaceUndoesEscape | app/S2D_Engine.py:78 | the `&amp;` replacement undoes the escaping of `&` exactly (an entity that starts with the character it escapes) |
| Entities.AmpersandFirstDecodesTwice | app/S2D_Engine.py:78 | because `&amp;` is decoded first, `&amp;gt;` becomes `>` |
| Entities.DecodesEachEntity | app/S2D_Engine.py:78 | `a &amp;&gt;&lt; b` decodes to `a &>< b` |
| Text.ReplaceAll | app/S2D_Engine.py:78 | `str.replace` never lengthens a text when the replacement is no longer than the pattern; this length bound is its whole contract, and `ReplaceAllAbsent` and `Entities.ReplaceUndoesEscape` are its partners |
| Text.ReplaceAllAbsent | app/S2D_Engine.py:78 | `str.replace` leaves a text without the pattern unchanged |
| Text.IndexOf | app/API_Discord.py:179 | the first occurrence of a pattern, and `None` exactly when it does not occur |
| Text.PrefixBefore | app/API_Discord.py:179 | `split(pat)[0]` is a prefix free of `pat` that ends at the first occurrence of `pat` (no occurrence starts inside it), or is the whole text |
| Ingest.DownloadUrls | app/S2D_Engine.py:84-88 | the URLs are exactly the `url_private_download` values of the entries; entries without one are skipped |
| Ingest.DownloadUrlsAppend | app/S2D_Engine.py:86-88 | the URLs keep the order of the entries |
| Ingest.Normalize | app/S2D_Engine.py:76-89 | a record fails iff it is kept and lacks `ts`, `text` or `user`, or its author is unknown; a message comes only from a kept record with `user_profile` or `files` |
| Ingest.RecordShapes | app/S2D_Engine.py:81-89 | with `user_profile`: a text message without file list; else with `files`: a file message with its download URLs; else skipped |
| Ingest.Collect | app/S2D_Engine.py:75-89 | a channel fails iff one of its records fails; otherwise its messages are exactly the messages of its kept records, never more than records |
| Ingest.CollectOne | app/S2D_Engine.py:76-89 | a single record yields its error, no message, or its one message |
| Ingest.CollectAppend | app/S2D_Engine.py:75-89 | collecting two runs of records is collecting the first and then the second: the messages in reading order, and an error in the first run before any in the second |
| Ingest.DroppedRecordsAreInvisible | app/S2D_Engine.py:76 | records with `subtype` or `bot_id` have no effect on a channel's messages |
| Ingest.IngestChannel | app/S2D_Engine.py:70-90 | a channel's messages are sorted by time, a permutation of the collected messages, and keep the reading order within each timestamp |
| Ingest.GetDataFrom | app/S2D_Engine.py:69-91 | the result has one key per channel, and every list is sorted |
| Ingest.GetDataFromKeeps | app/S2D_Engine.py:70-71 | a channel name that is not listed again keeps the list it already had |
| Ingest.GetDataFromChannel | app/S2D_Engine.py:70-90 | a channel not listed again later ends up with the ingestion of its own records, because its list is reset and filled from them |
| Ingest.GetDataFromFails | app/S2D_Engine.py:70-90 | `getData` fails iff some channel's ingestion fails |
| Ingest.GetData | app/S2D_Engine.py:63-91 | exactly the channels of the export are keys, each with a sorted message list; a channel not listed again later holds the ingestion of its own records |
| Ingest.Load | app/S2D_Engine.py:36-37 | start-up fails iff the directory scan fails or some record of some channel raises against the directory; otherwise the keys are the channels, each holding its own ingestion |
| Ingest.UnknownAuthorAbortsChannel | app/S2D_Engine.py:79-81 | an unknown author aborts the channel, even for a record the shape test would skip |
| TimeOrder.Insert | app/S2D_Engine.py:90 | inserting into a sorted list keeps it sorted and adds exactly the one message |
| TimeOrder.SortByTime | app/S2D_Engine.py:90 | the result is sorted by time and a permutation of the input |
| TimeOrder.InsertKeepsTimeOrder | app/S2D_Engine.py:90 | an inserted message comes before every message with the same timestamp, and the others keep their order; since the sort inserts each message into the already sorted rest of the list after it, this keeps the reading order |
| TimeOrder.SortIsStable | app/S2D_Engine.py:90 | for every timestamp, the messages carrying it keep their reading order |
| TimeOrder.StableSortIsUnique | app/S2D_Engine.py:90 | two sorted lists that agree on every timestamp's messages are equal |
| TimeOrder.StableSortCharacterised | app/S2D_Engine.py:90 | any sorted list that keeps each timestamp's reading order equals the sort's result, so it agrees with Python's stable sort |
| MessageSplit.HardCut | app/API_Discord.py:161 | the hard cut is a prefix of at most `length - 1` characters: the whole text, or exactly `length - 1` characters |
| MessageSplit.RightmostPeriod | app/API_Discord.py:152-159 | the split point is a period below `length`, and no period lies between it and `length` |
| MessageSplit.NextCutIsRightmostPeriod | app/API_Discord.py:151-159 | `NextCut`, the `"." in message` test followed by the walk, equals `RightmostPeriod`: the test is redundant, since without a period the walk finds none either |
| MessageSplit.ScanDown | app/API_Discord.py:152-159 | the downward walk from `bound` stops just after the last period below `bound`, or at 0 when there is none |
| MessageSplit.SplitMessage | app/API_Discord.py:149-168 | there is at least one chunk, and every chunk has at most `length - 1` characters |
| MessageSplit.SplitShape | app/API_Discord.py:150-167 | the result is the chunks cut at periods, followed by exactly one hard cut of the final remainder |
| MessageSplit.Stop | app/API_Discord.py:160-167 | with no period below `length`, the loop emits the hard cut and keeps the remainder it holds |
| MessageSplit.SplitMessageLoop | app/API_Discord.py:149-168 | the `while True` loop with its downward scan over the period indices computes `SplitMessage` |
| MessageSplit.PeriodStep | app/API_Discord.py:154-159 | a period split emits the text before the period, drops the period and continues after it, with the same final remainder and lost tail |
| MessageSplit.SplitThenJoin | app/API_Discord.py:150-167 | the chunks joined by `.`, followed by the lost tail, give back the input |
| MessageSplit.JoinIsPrefix | app/API_Discord.py:150-167 | the chunks joined by `.` are a prefix of the input |
| MessageSplit.LastChunkIsHardCut | app/API_Discord.py:160-167 | the last chunk is the hard cut of the final remainder |
| MessageSplit.LossIsExact | app/API_Discord.py:161-166 | text is lost iff the final remainder has at least `length` characters, and then exactly its characters from index `length - 1` on |
| MessageSplit.ChunksBoundedByPeriods | app/API_Discord.py:151-159 | there are at most one more chunk than periods, so the loop terminates |
| MessageSplit.NoPeriodIsOneHardCut | app/API_Discord.py:164-167 | a text without a period is one hard cut, and the rest of it is lost |
| MessageSplit.ShortTextWithoutPeriodIsOneChunk | app/API_Discord.py:164-167 | a text shorter than `length` and free of periods comes back whole |
| MessageSplit.ShortTextWithPeriodIsCut | app/API_Discord.py:151-159 | `"a.b"` is split into `"a"` and `"b"` even though it is short |
| DiscordApi.CreateEmbed | app/API_Discord.py:113-119 | an embed carries title and author iff it is built with `isFirst`, and then they are the given title, author and icon; it always carries the value |
| DiscordApi.EmbedParts | app/API_Discord.py:70-75 | one embed per chunk, in order; only the first is titled, with the message's title, author and icon |
| DiscordApi.TextPosts | app/API_Discord.py:70-80 | over 1023 characters: one post per chunk, the first titled with the message's time, author and icon; 1 to 1023: one titled post with the whole text; empty: none; only the first post is titled |
| DiscordApi.LongTextPostsSpellPrefix | app/API_Discord.py:70-75 | the posts of a long text are its chunks in order, and only the lost tail of the text is missing |
| DiscordApi.DownloadFileName | app/API_Discord.py:179 | the name is the text after the first `download/`, cut at the next `download/` or `?t`; a URL without `download/` is an error |
| DiscordApi.FileNameEnds | app/API_Discord.py:179 | the name holds no `download/` and ends at the URL's end, at a `?t` or at a further `download/` |
| DiscordApi.SegmentEnds | app/API_Discord.py:179 | `split("download/")[1]` ends at the URL's end or at the next `download/` |
| DiscordApi.NameEndsAtToken | app/API_Discord.py:179 | a name shorter than its segment is cut at a `?t` |
| DiscordApi.GetFile | app/API_Discord.py:179-188 | an attachment is uploaded iff its content-length is below 8·2^20 bytes, otherwise it gets an oversize notice; a URL without `download/` is an error |
| DiscordApi.SizeInMiB | app/API_Discord.py:181-182 | the size in MiB times 2^20 is the content-length, and it is below 8 iff the content-length is below 8·2^20 bytes |
| DiscordApi.UploadThresholdIsStrict | app/API_Discord.py:181-182 | exactly 8 MiB gets a notice, one byte less is uploaded |
| DiscordApi.MissingLengthUploads | app/API_Discord.py:181-182 | a missing `content-length` (-1) is uploaded |
| DiscordApi.FileActions | app/API_Discord.py:82-84 | action `i` is `getFile` of URL `i`, in list order; the loop covers every URL or stops at the first whose `getFile` fails, with that error |
| DiscordApi.FileActionsComplete | app/API_Discord.py:82-84 | the loop covers every URL iff each holds `download/`; otherwise it stops at the first URL without one |
| DiscordApi.AddMessage | app/API_Discord.py:62-86 | posts, then file actions, then the divider; on success exactly one divider, last; after a failure none |
| DiscordApi.AddMessageDelivers | app/API_Discord.py:82-86 | a message reaches its divider iff it has no file list or every URL holds `download/` |
| DiscordApi.AddMessageStops | app/API_Discord.py:70-84 | a message stopped by an attachment has already sent all its text posts and the actions of the URLs before the first one without `download/`, and that URL's error is the one reported |
| DiscordApi.AddMessageLayout | app/API_Discord.py:70-86 | a delivered message is its text posts, one action per URL (none without a file list), then the divider |

## Left out

- Filesystem and configuration: `getConfig`, the engine's `getChannels`, `os.walk`/`os.listdir`, the `.json` suffix test and `json.load`. A channel is given as its files' record lists, already loaded and in listing order.
- The Discord client: `on_ready`, `getChannels`, `addChannel`, `deleteAll`, every `await` and send. The destination channel is implicit, and a message's sends are its `Action`s.
- `requests.head`, `wget.download`, `os.remove` and `temp/divider.png` are I/O. The size is the `probe` parameter, and the download and the divider are the `Upload` and `Divider` actions.
- Timestamps: `float(ts)`, `datetime.fromtimestamp` and the time zone are left out. A timestamp is an `int` used only for ordering and as the embed title.
- `createErrorEmbed`: its colour, icon and the `int(file_size*100)/100` formatting are left out. The notice keeps the title, URL, file name and byte size.
- Embed colour, subtitle and `inline` are constants of `createEmbed`, and are left out.
- `tqdm` progress display.
- MessageSplit.SplitMessage: requires `length >= 1`. `addMessage` always passes the default 1024. For `length = 0`, Python's `message[:-1]` counts from the end of the text, which is not modelled.
- DiscordApi.GetFile: the size is compared as the exact rational `content-length / 2^20`. Python's float division agrees on every length below 2^53 bytes, and the model does not claim anything about lengths beyond that.
- Ingest.Normalize: a `ts` that `float()` cannot parse, and a `files` or `user_profile` value of the wrong JSON type, are not modelled. Records hold typed optional fields.

## Differences from the documentation

- The docstring of `splitMessage` (app/API_Discord.py:143) says it splits a message whose length exceeds 1024 characters. The code splits any text that holds a period below the limit, whatever its length: `MessageSplit.ShortTextWithPeriodIsCut` shows `"a.b"` becoming two chunks. `addMessage` only calls it for texts over 1023 characters, so no short text is split in the replay. The model follows the code.
- The shape test at app/S2D_Engine.py:81 also tests `text` and `ts`. Both keys have already been read at lines 77-78, so a record that reaches the test has both, and only `user_profile` decides the shape (`Ingest.RecordShapes`).
