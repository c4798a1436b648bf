/**
 * `Engine.getData` and the engine's start-up: every channel's records are
 * filtered, decoded, resolved against the author directory, shaped into
 * messages and sorted by timestamp.
 */
module Ingest {
  import opened Base
  import opened SlackExport
  import opened Entities
  import opened TimeOrder
  import opened UserDirectory

  /** Records with a `subtype` or a `bot_id` are system or bot traffic and are skipped. */
  predicate Dropped(r: Record)
  {
    r.hasSubtype || r.hasBotId
  }

  /** The `url_private_download` values of a `files` list, in order; entries without one are skipped. */
  function DownloadUrls(files: seq<FileMeta>): (urls: seq<string>)
    ensures |urls| <= |files|
    ensures forall u :: u in urls <==> exists i :: 0 <= i < |files| && files[i].urlPrivateDownload == Some(u)
  {
    if |files| == 0 then []
    else
      var rest := DownloadUrls(files[1..]);
      assert forall i :: 0 < i < |files| ==> files[i] == files[1..][i - 1];
      match files[0].urlPrivateDownload
      case Some(u) => [u] + rest
      case None => rest
  }

  /** Extracting the URLs of two lists one after the other keeps the order of both. */
  lemma {:induction false} DownloadUrlsAppend(a: seq<FileMeta>, b: seq<FileMeta>)
    ensures DownloadUrls(a + b) == DownloadUrls(a) + DownloadUrls(b)
    decreases |a|
  {
    if |a| == 0 {
      assert a + b == b;
    } else {
      assert (a + b)[0] == a[0] && (a + b)[1..] == a[1..] + b;
      DownloadUrlsAppend(a[1..], b);
    }
  }

  /**
   * One record of `getData` (app/S2D_Engine.py:76-89): `Ok(None)` when it is
   * skipped, `Ok(Some(m))` when it becomes message `m`, `Err` when a key is
   * missing. The timestamp, text and author are read before the shape is tested.
   */
  function Normalize(users: Directory, r: Record): (res: Result<Option<Message>, Error>)
    ensures res.Err? <==>
              !Dropped(r) && (r.ts.None? || r.text.None? || r.user.None? || r.user.value !in users)
    ensures res.Ok? && res.value.Some? ==> !Dropped(r) && (r.userProfile.Some? || r.files.Some?)
  {
    if Dropped(r) then Ok(None)
    else if r.ts.None? then Err(MissingField(Ts))
    else if r.text.None? then Err(MissingField(Text))
    else if r.user.None? then Err(MissingField(UserId))
    else if r.user.value !in users then Err(UnknownAuthor(r.user.value))
    else
      var time := r.ts.value;
      var text := DecodeEntities(r.text.value);
      var author := users[r.user.value];
      if r.text.Some? && r.userProfile.Some? && r.ts.Some? then
        Ok(Some(Message(time, author.name, text, author.icon, None)))
      else if r.files.Some? then
        Ok(Some(Message(time, author.name, text, author.icon, Some(DownloadUrls(r.files.value)))))
      else
        Ok(None)
  }

  /**
   * The shape of a kept record is decided by `user_profile` alone: with one it
   * is a text message without a file list, without one but with `files` it is
   * a file message, and otherwise it is skipped.
   */
  lemma RecordShapes(users: Directory, r: Record)
    requires !Dropped(r) && r.ts.Some? && r.text.Some? && r.user.Some? && r.user.value in users
    ensures var u := users[r.user.value];
            var m := Message(r.ts.value, u.name, DecodeEntities(r.text.value), u.icon, None);
            && (r.userProfile.Some? ==> Normalize(users, r) == Ok(Some(m)))
            && (r.userProfile.None? && r.files.Some? ==>
                  Normalize(users, r) == Ok(Some(m.(file := Some(DownloadUrls(r.files.value))))))
            && (r.userProfile.None? && r.files.None? ==> Normalize(users, r) == Ok(None))
  {
  }

  /** The messages of one channel's records in reading order; the first failing record aborts. */
  function Collect(users: Directory, rs: seq<Record>): (res: Result<seq<Message>, Error>)
    ensures res.Err? <==> exists i :: 0 <= i < |rs| && Normalize(users, rs[i]).Err?
    ensures res.Ok? ==> |res.value| <= |rs|
    ensures res.Ok? ==> forall m :: m in res.value <==> exists i :: 0 <= i < |rs| && Normalize(users, rs[i]) == Ok(Some(m))
    decreases |rs|
  {
    if |rs| == 0 then Ok([])
    else
      assert forall i :: 0 < i < |rs| ==> rs[i] == rs[1..][i - 1];
      match Normalize(users, rs[0])
      case Err(e) => Err(e)
      case Ok(None) =>
        Collect(users, rs[1..])
      case Ok(Some(m)) =>
        match Collect(users, rs[1..])
        case Err(e) => Err(e)
        case Ok(ms) => Ok([m] + ms)
  }

  /** One record alone: its error, no message, or its one message. */
  lemma CollectOne(users: Directory, r: Record)
    ensures Collect(users, [r]) == match Normalize(users, r)
                                   case Err(e) => Err(e)
                                   case Ok(None) => Ok([])
                                   case Ok(Some(m)) => Ok([m])
  {
    assert [r][0] == r && [r][1..] == [];
    assert Collect(users, []) == Ok([]);
    match Normalize(users, r)
    case Err(_) =>
    case Ok(None) =>
    case Ok(Some(m)) =>
      assert [m] + [] == [m];
  }

  /** One record's outcome in front of the rest's: the first error wins, a message goes first. */
  function ConsResult(n: Result<Option<Message>, Error>, rest: Result<seq<Message>, Error>): Result<seq<Message>, Error>
  {
    match n
    case Err(e) => Err(e)
    case Ok(None) => rest
    case Ok(Some(m)) =>
      match rest
      case Err(e) => Err(e)
      case Ok(ms) => Ok([m] + ms)
  }

  /** Two collected runs one after the other: the first error wins, otherwise the messages in order. */
  function AppendResults(x: Result<seq<Message>, Error>, y: Result<seq<Message>, Error>): Result<seq<Message>, Error>
  {
    match x
    case Err(e) => Err(e)
    case Ok(xs) =>
      match y
      case Err(e) => Err(e)
      case Ok(ys) => Ok(xs + ys)
  }

  /** Prepending a record's outcome commutes with appending a second run. */
  lemma ConsAppendResults(n: Result<Option<Message>, Error>, x: Result<seq<Message>, Error>, y: Result<seq<Message>, Error>)
    ensures ConsResult(n, AppendResults(x, y)) == AppendResults(ConsResult(n, x), y)
  {
    if n.Ok? && n.value.Some? && x.Ok? && y.Ok? {
      assert [n.value.value] + (x.value + y.value) == [n.value.value] + x.value + y.value;
    }
  }

  /** A record in front of a run: its outcome, then the run's. */
  lemma CollectCons(users: Directory, r: Record, rest: seq<Record>)
    ensures Collect(users, [r] + rest) == ConsResult(Normalize(users, r), Collect(users, rest))
  {
    assert ([r] + rest)[0] == r && ([r] + rest)[1..] == rest;
  }

  /**
   * Collecting `a + b` is collecting `a`, then `b`, the messages of `a` first:
   * with `CollectOne` this fixes the result as one message per kept record, in
   * reading order. The first error, in `a` before `b`, wins.
   */
  lemma {:induction false} CollectAppend(users: Directory, a: seq<Record>, b: seq<Record>)
    ensures Collect(users, a + b) == AppendResults(Collect(users, a), Collect(users, b))
    decreases |a|
  {
    if |a| == 0 {
      assert a + b == b;
      assert Collect(users, a) == Ok([]);
      if Collect(users, b).Ok? {
        assert [] + Collect(users, b).value == Collect(users, b).value;
      }
    } else {
      var r, a' := a[0], a[1..];
      assert a == [r] + a' && a + b == [r] + (a' + b);
      calc {
        Collect(users, a + b);
        { CollectCons(users, r, a' + b); }
        ConsResult(Normalize(users, r), Collect(users, a' + b));
        { CollectAppend(users, a', b); }
        ConsResult(Normalize(users, r), AppendResults(Collect(users, a'), Collect(users, b)));
        { ConsAppendResults(Normalize(users, r), Collect(users, a'), Collect(users, b)); }
        AppendResults(ConsResult(Normalize(users, r), Collect(users, a')), Collect(users, b));
        { CollectCons(users, r, a'); }
        AppendResults(Collect(users, a), Collect(users, b));
      }
    }
  }

  /** Records with a `subtype` or a `bot_id` have no effect on a channel's messages. */
  lemma {:induction false} DroppedRecordsAreInvisible(users: Directory, a: seq<Record>, r: Record, b: seq<Record>)
    requires Dropped(r)
    ensures Collect(users, a + [r] + b) == Collect(users, a + b)
    decreases |a|
  {
    if |a| == 0 {
      assert (a + [r] + b)[0] == r && (a + [r] + b)[1..] == b;
      assert a + b == b;
    } else {
      assert (a + [r] + b)[0] == a[0] && (a + [r] + b)[1..] == a[1..] + [r] + b;
      assert (a + b)[0] == a[0] && (a + b)[1..] == a[1..] + b;
      DroppedRecordsAreInvisible(users, a[1..], r, b);
    }
  }

  /** A channel of `getData`: its files' records collected, then sorted stably by time. */
  function IngestChannel(users: Directory, files: seq<seq<Record>>): (res: Result<seq<Message>, Error>)
    ensures res.Err? <==> Collect(users, Flatten(files)).Err?
    ensures res.Ok? ==> Sorted(res.value)
    ensures res.Ok? ==> multiset(res.value) == multiset(Collect(users, Flatten(files)).value)
    ensures res.Ok? ==> forall t :: WithTime(res.value, t) == WithTime(Collect(users, Flatten(files)).value, t)
  {
    match Collect(users, Flatten(files))
    case Err(e) => Err(e)
    case Ok(ms) =>
      forall t
        ensures WithTime(SortByTime(ms), t) == WithTime(ms, t)
      {
        SortIsStable(ms, t);
      }
      Ok(SortByTime(ms))
  }

  /** `getData` over the channels from `acc` on: a channel listed twice keeps its last ingestion. */
  function GetDataFrom(users: Directory, acc: map<string, seq<Message>>, channels: seq<ChannelExport>)
    : (res: Result<map<string, seq<Message>>, Error>)
    ensures res.Ok? ==> res.value.Keys == acc.Keys + ChannelNames(channels)
    ensures res.Ok? && (forall c :: c in acc ==> Sorted(acc[c])) ==>
              forall c :: c in res.value ==> Sorted(res.value[c])
    decreases |channels|
  {
    if |channels| == 0 then Ok(acc)
    else
      ChannelNamesCons(channels);
      match IngestChannel(users, channels[0].files)
      case Err(e) => Err(e)
      case Ok(ms) => GetDataFrom(users, acc[channels[0].name := ms], channels[1..])
  }

  /** The run aborts exactly when some channel's ingestion does. */
  lemma {:induction false} GetDataFromFails(users: Directory, acc: map<string, seq<Message>>, channels: seq<ChannelExport>)
    ensures GetDataFrom(users, acc, channels).Err? <==>
              exists k :: 0 <= k < |channels| && IngestChannel(users, channels[k].files).Err?
    decreases |channels|
  {
    if |channels| > 0 {
      var first := IngestChannel(users, channels[0].files);
      if first.Ok? {
        var acc' := acc[channels[0].name := first.value];
        GetDataFromFails(users, acc', channels[1..]);
        if GetDataFrom(users, acc', channels[1..]).Err? {
          var k :| 0 <= k < |channels[1..]| && IngestChannel(users, channels[1..][k].files).Err?;
          assert channels[k + 1] == channels[1..][k];
        }
        if exists k :: 0 <= k < |channels| && IngestChannel(users, channels[k].files).Err? {
          var k :| 0 <= k < |channels| && IngestChannel(users, channels[k].files).Err?;
          assert channels[1..][k - 1] == channels[k];
        }
      }
    }
  }

  /** The names of a non-empty export: the first channel's and the rest's. */
  lemma ChannelNamesCons(channels: seq<ChannelExport>)
    requires |channels| > 0
    ensures ChannelNames(channels) == {channels[0].name} + ChannelNames(channels[1..])
  {
    forall c | c in ChannelNames(channels)
      ensures c in {channels[0].name} + ChannelNames(channels[1..])
    {
      var k :| 0 <= k < |channels| && channels[k].name == c;
      if k > 0 {
        assert channels[1..][k - 1].name == c;
      }
    }
    forall c | c in ChannelNames(channels[1..])
      ensures c in ChannelNames(channels)
    {
      var k :| 0 <= k < |channels[1..]| && channels[1..][k].name == c;
      assert channels[k + 1].name == c;
    }
  }

  /** A key that no remaining channel names keeps the list it had. */
  lemma {:induction false} GetDataFromKeeps(users: Directory, acc: map<string, seq<Message>>, channels: seq<ChannelExport>, c: string)
    requires GetDataFrom(users, acc, channels).Ok?
    requires c in acc && c !in ChannelNames(channels)
    ensures GetDataFrom(users, acc, channels).value[c] == acc[c]
    decreases |channels|
  {
    if |channels| > 0 {
      ChannelNamesCons(channels);
      var ms := IngestChannel(users, channels[0].files).value;
      GetDataFromKeeps(users, acc[channels[0].name := ms], channels[1..], c);
    }
  }

  /**
   * A channel that is not listed again later ends up with its own ingestion:
   * the list that `getData` resets and fills from that channel's records.
   */
  lemma {:induction false} GetDataFromChannel(users: Directory, acc: map<string, seq<Message>>, channels: seq<ChannelExport>, k: nat)
    requires GetDataFrom(users, acc, channels).Ok?
    requires k < |channels| && channels[k].name !in ChannelNames(channels[k + 1..])
    ensures IngestChannel(users, channels[k].files).Ok?
    ensures GetDataFrom(users, acc, channels).value[channels[k].name] == IngestChannel(users, channels[k].files).value
    decreases |channels|
  {
    ChannelNamesCons(channels);
    var ms := IngestChannel(users, channels[0].files).value;
    var acc' := acc[channels[0].name := ms];
    if k == 0 {
      GetDataFromKeeps(users, acc', channels[1..], channels[0].name);
    } else {
      assert channels[1..][k - 1] == channels[k] && channels[1..][k..] == channels[k + 1..];
      GetDataFromChannel(users, acc', channels[1..], k - 1);
    }
  }

  /** `getData`: one sorted message list per channel, or the error that aborted the run. */
  function GetData(users: Directory, channels: seq<ChannelExport>): (res: Result<map<string, seq<Message>>, Error>)
    ensures res.Ok? ==> res.value.Keys == ChannelNames(channels)
    ensures res.Ok? ==> forall c :: c in res.value ==> Sorted(res.value[c])
    ensures res.Ok? ==> forall k :: 0 <= k < |channels| && channels[k].name !in ChannelNames(channels[k + 1..]) ==>
              IngestChannel(users, channels[k].files).Ok? && res.value[channels[k].name] == IngestChannel(users, channels[k].files).value
  {
    var res := GetDataFrom(users, map[], channels);
    if res.Ok? then
      forall k | 0 <= k < |channels| && channels[k].name !in ChannelNames(channels[k + 1..])
        ensures IngestChannel(users, channels[k].files).Ok? && res.value[channels[k].name] == IngestChannel(users, channels[k].files).value
      {
        GetDataFromChannel(users, map[], channels, k);
      }
      res
    else res
  }

  /** Some record of channel `k` raises during `getData`. */
  ghost predicate RecordFails(users: Directory, channels: seq<ChannelExport>, k: nat)
    requires k < |channels|
  {
    exists i :: 0 <= i < |Flatten(channels[k].files)| && Normalize(users, Flatten(channels[k].files)[i]).Err?
  }

  /**
   * `Engine.__init__`: the directory is built first, then the per-channel data
   * from it. Start-up fails iff the directory scan fails or some record of some
   * channel raises; otherwise every channel has its own ingestion.
   */
  function Load(channels: seq<ChannelExport>): (res: Result<map<string, seq<Message>>, Error>)
    ensures res.Err? <==>
              GetUsers(channels).Err? || exists k :: 0 <= k < |channels| && RecordFails(GetUsers(channels).value, channels, k)
    ensures res.Ok? ==> res.value.Keys == ChannelNames(channels)
    ensures res.Ok? ==> forall k :: 0 <= k < |channels| && channels[k].name !in ChannelNames(channels[k + 1..]) ==>
              && IngestChannel(GetUsers(channels).value, channels[k].files).Ok?
              && res.value[channels[k].name] == IngestChannel(GetUsers(channels).value, channels[k].files).value
  {
    match GetUsers(channels)
    case Err(e) => Err(e)
    case Ok(users) =>
      GetDataFromFails(users, map[], channels);
      assert forall k :: 0 <= k < |channels| ==>
               (IngestChannel(users, channels[k].files).Err? <==> RecordFails(users, channels, k));
      GetData(users, channels)
  }

  /**
   * An author missing from the directory is fatal, whatever the record's shape:
   * the lookup comes before the shape test, so even a record that would be
   * skipped for want of `user_profile` and `files` aborts its channel.
   */
  lemma UnknownAuthorAbortsChannel(users: Directory, files: seq<seq<Record>>, i: nat)
    requires i < |Flatten(files)|
    requires var r := Flatten(files)[i];
             !Dropped(r) && r.ts.Some? && r.text.Some? && r.user.Some? && r.user.value !in users
    ensures IngestChannel(users, files).Err?
  {
    assert Normalize(users, Flatten(files)[i]).Err?;
  }
}
