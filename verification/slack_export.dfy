/**
 * The Slack export as the replayer sees it: JSON records with optional keys,
 * grouped in files and channels, and the normalised values the engine builds.
 */
module SlackExport {
  import opened Base

  /** The `user_profile` object of a record; either key may be missing. */
  datatype Profile = Profile(realName: Option<string>, image72: Option<string>)

  /** One entry of a record's `files` list. */
  datatype FileMeta = FileMeta(urlPrivateDownload: Option<string>)

  /**
   * One exported record. `subtype` and `bot_id` matter only by presence.
   * `ts` stands for the parsed timestamp: an abstract, totally ordered key.
   */
  datatype Record = Record(
    hasSubtype: bool,
    hasBotId: bool,
    ts: Option<int>,
    text: Option<string>,
    user: Option<string>,
    userProfile: Option<Profile>,
    files: Option<seq<FileMeta>>)

  /** A channel directory: its name and its record files, already loaded, in listing order. */
  datatype ChannelExport = ChannelExport(name: string, files: seq<seq<Record>>)

  /** A directory entry: display name (`real_name`) and avatar (`image_72`). */
  datatype User = User(name: string, icon: string)

  type Directory = map<string, User>

  /** A normalised message; `file` is `None` for a text-shaped record. */
  datatype Message = Message(time: int, user: string, text: string, icon: string, file: Option<seq<string>>)

  /** The record keys whose absence raises a `KeyError`. */
  datatype Field = Ts | Text | UserId | RealName | Image72

  /** Everything that aborts a run. */
  datatype Error =
    | MissingField(field: Field)      // a `KeyError` on a record
    | UnknownAuthor(id: string)       // a `KeyError` on the user directory
    | NoDownloadSegment(url: string)  // an `IndexError` extracting a filename

  /** The records of a channel's files, file after file. */
  function Flatten(files: seq<seq<Record>>): seq<Record>
  {
    if |files| == 0 then [] else files[0] + Flatten(files[1..])
  }

  /** Every record of the export, channel after channel. */
  function AllRecords(channels: seq<ChannelExport>): seq<Record>
  {
    if |channels| == 0 then [] else Flatten(channels[0].files) + AllRecords(channels[1..])
  }

  /** The channel names of an export. */
  function ChannelNames(channels: seq<ChannelExport>): set<string>
  {
    set k | 0 <= k < |channels| :: channels[k].name
  }
}
