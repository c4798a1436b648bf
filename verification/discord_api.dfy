/**
 * The pure decisions of `DiscordClient`: which posts a message becomes
 * (`addMessage`, `createEmbed`), how an attachment URL is named and whether
 * it is re-uploaded or announced as oversize (`getFile`). Every send is an
 * `Action` in the order the client would perform it.
 */
module DiscordApi {
  import opened Base
  import opened Text
  import opened SlackExport
  import opened MessageSplit

  /** Default `length` of `splitMessage`: an embed field holds at most 1024 characters. */
  const BodyLimit: nat := 1024

  /** `1 << 20`, the divisor that turns `content-length` into MiB. */
  const MiB: nat := 1048576

  /** The upload cap, in MiB. */
  const UploadLimitMiB: real := 8.0

  /** The URL segment whose end starts the file name. */
  const DownloadMarker: string := "download/"

  /** The query parameter that ends the file name. */
  const TokenMarker: string := "?t"

  /** One thing sent to a destination channel. */
  datatype Action =
    | TitledPost(title: int, author: string, icon: string, body: string)   // embed with title and author
    | ContinuationPost(body: string)                                      // embed without them
    | Upload(url: string, filename: string)                               // file re-uploaded from temp/
    | OversizeNotice(title: int, url: string, filename: string, sizeBytes: int)
    | Divider                                                             // temp/divider.png

  /** The actions performed, and the error that stopped them, if any. */
  datatype Run = Run(actions: seq<Action>, failure: Option<Error>)

  /** Text posts come first, then attachment actions, then the divider. */
  function Phase(a: Action): nat
  {
    match a
    case TitledPost(_, _, _, _) => 0
    case ContinuationPost(_) => 0
    case Upload(_, _) => 1
    case OversizeNotice(_, _, _, _) => 1
    case Divider => 2
  }

  /** `createEmbed`: only an embed built with `isFirst` carries the title and the author. */
  function CreateEmbed(title: int, value: string, author: string, icon: string, isFirst: bool): (a: Action)
    ensures a.TitledPost? <==> isFirst
    ensures Phase(a) == 0 && a.body == value
    ensures a.TitledPost? ==> a.title == title && a.author == author && a.icon == icon
  {
    if isFirst then TitledPost(title, author, icon, value) else ContinuationPost(value)
  }

  /** The embeds of a split text: `isFirst` holds for the first and is cleared after each send. */
  function EmbedParts(title: int, author: string, icon: string, parts: seq<string>, isFirst: bool): (posts: seq<Action>)
    ensures |posts| == |parts|
    ensures forall i :: 0 <= i < |posts| ==> Phase(posts[i]) == 0 && posts[i].body == parts[i]
    ensures forall i :: 0 <= i < |posts| ==> (posts[i].TitledPost? <==> isFirst && i == 0)
    ensures isFirst && |parts| > 0 ==> posts[0] == TitledPost(title, author, icon, parts[0])
  {
    if |parts| == 0 then []
    else [CreateEmbed(title, parts[0], author, icon, isFirst)] + EmbedParts(title, author, icon, parts[1..], false)
  }

  /**
   * The text posts of `addMessage` (app/API_Discord.py:70-80): two independent
   * tests on the length, which no text passes both of.
   */
  function TextPosts(m: Message): (posts: seq<Action>)
    ensures forall i :: 0 <= i < |posts| ==> Phase(posts[i]) == 0 && (posts[i].TitledPost? <==> i == 0)
    ensures |m.text| > BodyLimit - 1 ==> |posts| == |SplitMessage(m.text, BodyLimit)|
    ensures |m.text| > BodyLimit - 1 ==>
              forall i :: 0 <= i < |posts| ==> Phase(posts[i]) == 0 && posts[i].body == SplitMessage(m.text, BodyLimit)[i]
    ensures |m.text| > BodyLimit - 1 ==> posts[0] == TitledPost(m.time, m.user, m.icon, SplitMessage(m.text, BodyLimit)[0])
    ensures 0 < |m.text| < BodyLimit ==> posts == [TitledPost(m.time, m.user, m.icon, m.text)]
    ensures m.text == "" ==> posts == []
  {
    (if |m.text| > BodyLimit - 1 then EmbedParts(m.time, m.user, m.icon, SplitMessage(m.text, BodyLimit), true) else [])
    + (if |m.text| < BodyLimit && m.text != "" then [CreateEmbed(m.time, m.text, m.user, m.icon, true)] else [])
  }

  /**
   * `str(file).split("download/")[1].split("?t")[0]`: the text after the first
   * `download/`, up to the next `download/` and then up to the first `?t`.
   * Without `download/` the indexing raises.
   */
  function DownloadFileName(url: string): (r: Result<string, Error>)
    ensures r.Err? <==> !Contains(url, DownloadMarker)
    ensures r.Err? ==> r.error == NoDownloadSegment(url)
    ensures r.Ok? ==> !Contains(r.value, DownloadMarker) && !Contains(r.value, TokenMarker)
    ensures r.Ok? ==>
              var start := IndexOf(url, DownloadMarker).value + |DownloadMarker|;
              var stop := start + |r.value|;
              && stop <= |url|
              && url[start..stop] == r.value
              && (stop == |url| || OccursAt(url, TokenMarker, stop) || OccursAt(url, DownloadMarker, stop))
  {
    match IndexOf(url, DownloadMarker)
    case None => Err(NoDownloadSegment(url))
    case Some(i) =>
      var rest := url[i + |DownloadMarker|..];
      var name := PrefixBefore(PrefixBefore(rest, DownloadMarker), TokenMarker);
      FileNameEnds(url, i + |DownloadMarker|, name);
      Ok(name)
  }

  /** Where the extracted name ends in the URL: at its end, at a `?t` or at a further `download/`. */
  lemma FileNameEnds(url: string, start: nat, name: string)
    requires start <= |url|
    requires name == PrefixBefore(PrefixBefore(url[start..], DownloadMarker), TokenMarker)
    ensures !Contains(name, DownloadMarker)
    ensures start + |name| <= |url| && url[start..start + |name|] == name
    ensures var stop := start + |name|;
            stop == |url| || OccursAt(url, TokenMarker, stop) || OccursAt(url, DownloadMarker, stop)
  {
    var rest := url[start..];
    var segment := PrefixBefore(rest, DownloadMarker);
    PrefixKeepsAbsence(segment, |name|, DownloadMarker);
    assert url[start..start + |name|] == rest[..|name|];
    if name == segment {
      SegmentEnds(url, start, segment);
    } else {
      NameEndsAtToken(url, start, segment, name);
    }
  }

  /** The segment after `download/` ends at the URL's end or at the next `download/`. */
  lemma SegmentEnds(url: string, start: nat, segment: string)
    requires start <= |url| && segment == PrefixBefore(url[start..], DownloadMarker)
    ensures start + |segment| == |url| || OccursAt(url, DownloadMarker, start + |segment|)
  {
    if segment != url[start..] {
      OccursInSuffix(url, start, DownloadMarker, |segment|);
    }
  }

  /** A name cut short of its segment ends at a `?t`. */
  lemma NameEndsAtToken(url: string, start: nat, segment: string, name: string)
    requires start <= |url| && segment == PrefixBefore(url[start..], DownloadMarker)
    requires name == PrefixBefore(segment, TokenMarker) && name != segment
    ensures OccursAt(url, TokenMarker, start + |name|)
  {
    OccursInPrefix(url[start..], |segment|, TokenMarker, |name|);
    OccursInSuffix(url, start, TokenMarker, |name|);
  }

  /** `size = content-length / 2^20`, in MiB; a missing header reads as -1. */
  function SizeInMiB(contentLength: int): (size: real)
    ensures size < UploadLimitMiB <==> contentLength < 8 * MiB
    ensures size * MiB as real == contentLength as real
  {
    contentLength as real / MiB as real
  }

  /**
   * `getFile` for one URL: the file name is extracted first, then the size
   * decides between re-uploading and an oversize notice.
   */
  function GetFile(url: string, title: int, contentLength: int): (r: Result<Action, Error>)
    ensures r.Err? <==> !Contains(url, DownloadMarker)
    ensures r.Err? ==> r.error == NoDownloadSegment(url)
    ensures r.Ok? ==> Phase(r.value) == 1 && r.value.url == url && Ok(r.value.filename) == DownloadFileName(url)
    ensures r.Ok? ==> (r.value.Upload? <==> contentLength < 8 * MiB)
    ensures r.Ok? && r.value.OversizeNotice? ==> r.value.sizeBytes == contentLength && r.value.title == title
  {
    match DownloadFileName(url)
    case Err(e) => Err(e)
    case Ok(name) =>
      if SizeInMiB(contentLength) < UploadLimitMiB then Ok(Upload(url, name))
      else Ok(OversizeNotice(title, url, name, contentLength))
  }

  /** The threshold is strict: exactly 8 MiB is announced, one byte less is uploaded. */
  lemma UploadThresholdIsStrict(url: string, title: int)
    requires Contains(url, DownloadMarker)
    ensures GetFile(url, title, 8 * MiB).value.OversizeNotice?
    ensures GetFile(url, title, 8 * MiB - 1).value.Upload?
  {
  }

  /** A response without `content-length` counts as -1 bytes and is uploaded. */
  lemma MissingLengthUploads(url: string, title: int)
    requires Contains(url, DownloadMarker)
    ensures GetFile(url, title, -1).value.Upload?
  {
  }

  /**
   * The attachment loop of `addMessage`: one `getFile` per URL in list order,
   * `probe` standing for the `content-length` a HEAD request reports. The
   * first failing URL stops the loop.
   */
  function FileActions(urls: seq<string>, title: int, probe: string -> int): (run: Run)
    ensures |run.actions| <= |urls|
    ensures forall i :: 0 <= i < |run.actions| ==> Ok(run.actions[i]) == GetFile(urls[i], title, probe(urls[i]))
    ensures forall i :: 0 <= i < |run.actions| ==> Phase(run.actions[i]) == 1
    ensures run.failure.None? ==> |run.actions| == |urls|
    ensures run.failure.Some? ==>
              var k := |run.actions|;
              k < |urls| && GetFile(urls[k], title, probe(urls[k])) == Err(run.failure.value)
    decreases |urls|
  {
    if |urls| == 0 then Run([], None)
    else
      match GetFile(urls[0], title, probe(urls[0]))
      case Err(e) => Run([], Some(e))
      case Ok(a) =>
        var rest := FileActions(urls[1..], title, probe);
        ShiftedActions(urls, title, probe, a, rest);
        Run([a] + rest.actions, rest.failure)
  }

  /** Prepending the first URL's action keeps action `i` the `getFile` of URL `i`. */
  lemma ShiftedActions(urls: seq<string>, title: int, probe: string -> int, a: Action, rest: Run)
    requires |urls| > 0 && Ok(a) == GetFile(urls[0], title, probe(urls[0]))
    requires |rest.actions| <= |urls| - 1
    requires forall i :: 0 <= i < |rest.actions| ==>
               Ok(rest.actions[i]) == GetFile(urls[1..][i], title, probe(urls[1..][i]))
    ensures forall i :: 0 <= i < |rest.actions| + 1 ==>
              Ok(([a] + rest.actions)[i]) == GetFile(urls[i], title, probe(urls[i]))
  {
    forall i | 0 < i < |rest.actions| + 1
      ensures Ok(([a] + rest.actions)[i]) == GetFile(urls[i], title, probe(urls[i]))
    {
      assert ([a] + rest.actions)[i] == rest.actions[i - 1];
      assert urls[1..][i - 1] == urls[i];
    }
  }

  /** The attachment loop completes iff every URL holds `download/`; otherwise it stops at the first that does not. */
  lemma FileActionsComplete(urls: seq<string>, title: int, probe: string -> int)
    ensures var run := FileActions(urls, title, probe);
            && (run.failure.None? <==> forall i :: 0 <= i < |urls| ==> Contains(urls[i], DownloadMarker))
            && (run.failure.Some? ==>
                  && !Contains(urls[|run.actions|], DownloadMarker)
                  && run.failure == Some(NoDownloadSegment(urls[|run.actions|]))
                  && forall i :: 0 <= i < |run.actions| ==> Contains(urls[i], DownloadMarker))
  {
    var run := FileActions(urls, title, probe);
    forall i | 0 <= i < |run.actions|
      ensures Contains(urls[i], DownloadMarker)
    {
      assert GetFile(urls[i], title, probe(urls[i])).Ok?;
    }
    if run.failure.Some? {
      var k := |run.actions|;
      assert GetFile(urls[k], title, probe(urls[k])).Err?;
    }
  }

  /**
   * `addMessage`: the text posts, then the attachment actions, then exactly
   * one divider. A failing attachment stops the message before its divider.
   */
  function AddMessage(m: Message, probe: string -> int): (run: Run)
    ensures forall i, j :: 0 <= i < j < |run.actions| ==> Phase(run.actions[i]) <= Phase(run.actions[j])
    ensures run.failure.None? ==>
              && |run.actions| > 0
              && run.actions[|run.actions| - 1] == Divider
              && forall i :: 0 <= i < |run.actions| - 1 ==> Phase(run.actions[i]) < 2
    ensures run.failure.Some? ==> forall i :: 0 <= i < |run.actions| ==> Phase(run.actions[i]) < 2
  {
    var posts := TextPosts(m);
    var files := if m.file.None? then Run([], None) else FileActions(m.file.value, m.time, probe);
    PhasesInOrder(posts, files.actions);
    if files.failure.Some? then Run(posts + files.actions, files.failure)
    else Run(posts + files.actions + [Divider], None)
  }

  /** Posts of phase 0 followed by file actions of phase 1, with or without the closing divider, are in phase order. */
  lemma PhasesInOrder(posts: seq<Action>, files: seq<Action>)
    requires forall i :: 0 <= i < |posts| ==> Phase(posts[i]) == 0
    requires forall i :: 0 <= i < |files| ==> Phase(files[i]) == 1
    ensures var body := posts + files;
            && (forall i, j :: 0 <= i < j < |body| ==> Phase(body[i]) <= Phase(body[j]))
            && (forall i :: 0 <= i < |body| ==> Phase(body[i]) < 2)
    ensures var acts := posts + files + [Divider];
            && (forall i, j :: 0 <= i < j < |acts| ==> Phase(acts[i]) <= Phase(acts[j]))
            && acts[|acts| - 1] == Divider
            && (forall i :: 0 <= i < |acts| - 1 ==> Phase(acts[i]) < 2)
  {
    var body := posts + files;
    assert forall i :: 0 <= i < |body| ==> Phase(body[i]) == (if i < |posts| then 0 else 1);
    var acts := body + [Divider];
    assert forall i :: 0 <= i < |acts| ==> Phase(acts[i]) == (if i < |posts| then 0 else if i < |body| then 1 else 2);
  }

  /** A message is delivered, divider included, iff every attachment URL holds `download/`. */
  lemma AddMessageDelivers(m: Message, probe: string -> int)
    ensures AddMessage(m, probe).failure.None? <==>
              m.file.None? || forall i :: 0 <= i < |m.file.value| ==> Contains(m.file.value[i], DownloadMarker)
  {
    if m.file.Some? {
      FileActionsComplete(m.file.value, m.time, probe);
    }
  }

  /**
   * The layout of a delivered message: its text posts, one attachment action
   * per URL in list order (none without a file list), then the divider.
   */
  lemma AddMessageLayout(m: Message, probe: string -> int)
    requires AddMessage(m, probe).failure.None?
    ensures var acts := AddMessage(m, probe).actions;
            var n := |TextPosts(m)|;
            var k := if m.file.None? then 0 else |m.file.value|;
            && |acts| == n + k + 1
            && acts[..n] == TextPosts(m)
            && (forall i :: 0 <= i < k ==> Ok(acts[n + i]) == GetFile(m.file.value[i], m.time, probe(m.file.value[i])))
            && acts[n + k] == Divider
  {
  }

  /**
   * `run` sent `posts`, then the actions of the URLs before the `k`-th, and
   * stopped with the `k`-th URL's error, where `k` counts the actions after
   * the posts.
   */
  predicate StoppedAt(run: Run, posts: seq<Action>, urls: seq<string>, title: int, probe: string -> int)
  {
    var n := |posts|;
    var k := |run.actions| - n;
    && run.failure.Some?
    && n <= |run.actions| && k < |urls|
    && run.actions[..n] == posts
    && (forall i :: 0 <= i < k ==> Ok(run.actions[n + i]) == GetFile(urls[i], title, probe(urls[i])))
    && GetFile(urls[k], title, probe(urls[k])) == Err(run.failure.value)
  }

  /**
   * What a message stopped by a failing attachment has already sent: its text
   * posts and the actions of the URLs before the first one without
   * `download/`, whose error stops the message before its divider.
   */
  lemma AddMessageStops(m: Message, probe: string -> int)
    ensures AddMessage(m, probe).failure.Some? ==>
              m.file.Some? && StoppedAt(AddMessage(m, probe), TextPosts(m), m.file.value, m.time, probe)
  {
    if AddMessage(m, probe).failure.Some? {
      assert m.file.Some?;
      var files := FileActions(m.file.value, m.time, probe);
      assert AddMessage(m, probe) == Run(TextPosts(m) + files.actions, files.failure);
      StoppedRun(TextPosts(m), m.file.value, m.time, probe, files);
    }
  }

  /** Posts followed by an attachment loop that failed have stopped at the loop's failing URL. */
  lemma StoppedRun(posts: seq<Action>, urls: seq<string>, title: int, probe: string -> int, files: Run)
    requires files.failure.Some? && |files.actions| < |urls|
    requires forall i :: 0 <= i < |files.actions| ==> Ok(files.actions[i]) == GetFile(urls[i], title, probe(urls[i]))
    requires GetFile(urls[|files.actions|], title, probe(urls[|files.actions|])) == Err(files.failure.value)
    ensures StoppedAt(Run(posts + files.actions, files.failure), posts, urls, title, probe)
  {
    var acts, n := posts + files.actions, |posts|;
    AppendParts(posts, files.actions);
    forall i | 0 <= i < |files.actions|
      ensures Ok(acts[n + i]) == GetFile(urls[i], title, probe(urls[i]))
    {
      assert acts[n + i] == files.actions[i];
    }
  }

  /** The first part of `a + b` is `a`, and `b[i]` sits at index `|a| + i`. */
  lemma AppendParts<T>(a: seq<T>, b: seq<T>)
    ensures (a + b)[..|a|] == a
    ensures forall i :: 0 <= i < |b| ==> (a + b)[|a| + i] == b[i]
  {
  }

  /**
   * The text of a long message is posted as the split chunks, in order; joined
   * with `.` they spell a prefix of the text, and only `Lost` is missing.
   */
  lemma LongTextPostsSpellPrefix(m: Message)
    requires |m.text| > BodyLimit - 1
    ensures var bodies := seq(|TextPosts(m)|, i requires 0 <= i < |TextPosts(m)| => TextPosts(m)[i].body);
            bodies == SplitMessage(m.text, BodyLimit)
            && JoinWith(bodies, ".") + Lost(m.text, BodyLimit) == m.text
  {
    SplitThenJoin(m.text, BodyLimit);
  }
}
