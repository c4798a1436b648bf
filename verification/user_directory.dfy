/**
 * `Engine.getUsers`: one pass over every record of every channel that builds
 * the author directory, first record seen for an id wins.
 */
module UserDirectory {
  import opened Base
  import opened SlackExport

  /** The records getUsers reads: no `subtype` and a `user_profile`. `bot_id` plays no part. */
  predicate Contributes(r: Record)
  {
    !r.hasSubtype && r.userProfile.Some?
  }

  /** `r` is a contributing record for author `id`. */
  predicate Carries(r: Record, id: string)
  {
    Contributes(r) && r.user == Some(id)
  }

  /** The entry a record's profile yields when both `real_name` and `image_72` are present. */
  function EntryOf(r: Record): Option<User>
  {
    match r.userProfile
    case Some(Profile(Some(name), Some(icon))) => Some(User(name, icon))
    case _ => None
  }

  /** A contributing record that would raise a `KeyError` if it were the first for its id. */
  predicate Malformed(r: Record)
  {
    Contributes(r) && (r.user.None? || EntryOf(r).None?)
  }

  /** One step of the scan (app/S2D_Engine.py:105-110). */
  function AddUser(dir: Directory, r: Record): (res: Result<Directory, Error>)
    ensures res.Err? <==> Malformed(r) && (r.user.Some? ==> r.user.value !in dir)
    ensures res.Ok? ==> forall id :: id in res.value <==> id in dir || Carries(r, id)
    ensures res.Ok? ==> forall id :: id in dir ==> res.value[id] == dir[id]
    ensures res.Ok? && r.user.Some? && Carries(r, r.user.value) && r.user.value !in dir ==>
              EntryOf(r) == Some(res.value[r.user.value])
  {
    if r.hasSubtype || r.userProfile.None? then Ok(dir)
    else if r.user.None? then Err(MissingField(UserId))
    else if r.user.value in dir then Ok(dir)
    else if r.userProfile.value.realName.None? then Err(MissingField(RealName))
    else if r.userProfile.value.image72.None? then Err(MissingField(Image72))
    else Ok(dir[r.user.value := User(r.userProfile.value.realName.value, r.userProfile.value.image72.value)])
  }

  /** The scan from directory `dir` over `rs`; the first error aborts it. */
  function BuildFrom(dir: Directory, rs: seq<Record>): (res: Result<Directory, Error>)
    ensures res.Ok? ==> dir.Keys <= res.value.Keys
    ensures res.Ok? ==> forall id :: id in dir ==> res.value[id] == dir[id]
    decreases |rs|
  {
    if |rs| == 0 then Ok(dir)
    else match AddUser(dir, rs[0])
      case Err(e) => Err(e)
      case Ok(dir') => BuildFrom(dir', rs[1..])
  }

  /** The directory `getUsers` starts from. */
  const NoUsers: Directory := map[]

  /**
   * `getUsers`: the directory built from every record of the export. It lists
   * exactly the ids of contributing records, each with the entry of the first
   * record that carries it.
   */
  function GetUsers(channels: seq<ChannelExport>): (res: Result<Directory, Error>)
    ensures res.Ok? ==> forall id :: id in res.value <==> FirstCarrier(AllRecords(channels), id).Some?
    ensures res.Ok? ==> forall id :: id in res.value ==>
              EntryOf(AllRecords(channels)[FirstCarrier(AllRecords(channels), id).value]) == Some(res.value[id])
  {
    var rs := AllRecords(channels);
    var res := BuildFrom(NoUsers, rs);
    assert res.Ok? ==> forall id :: (id in res.value <==> FirstCarrier(rs, id).Some?) by {
      if res.Ok? {
        forall id ensures id in res.value <==> FirstCarrier(rs, id).Some? {
          BuildFromFirstSeenWins(NoUsers, rs, id);
        }
      }
    }
    assert res.Ok? ==> forall id :: id in res.value ==> EntryOf(rs[FirstCarrier(rs, id).value]) == Some(res.value[id]) by {
      if res.Ok? {
        forall id | id in res.value ensures EntryOf(rs[FirstCarrier(rs, id).value]) == Some(res.value[id]) {
          BuildFromFirstSeenWins(NoUsers, rs, id);
        }
      }
    }
    res
  }

  /** Index of the first record contributing author `id`: the record whose entry wins. */
  function FirstCarrier(rs: seq<Record>, id: string): (r: Option<nat>)
    ensures r.Some? ==> r.value < |rs| && Carries(rs[r.value], id)
    ensures r.Some? ==> forall j :: 0 <= j < r.value ==> !Carries(rs[j], id)
    ensures r.None? ==> forall j :: 0 <= j < |rs| ==> !Carries(rs[j], id)
  {
    if |rs| == 0 then None
    else if Carries(rs[0], id) then Some(0)
    else match FirstCarrier(rs[1..], id)
      case None => None
      case Some(i) => Some(i + 1)
  }

  /**
   * First-seen-wins: after a successful scan, `id` is listed iff it was listed
   * before or some contributing record carries it; a listed id keeps its old
   * entry, and a new one gets the entry of its first contributing record.
   */
  lemma {:induction false} BuildFromFirstSeenWins(dir: Directory, rs: seq<Record>, id: string)
    requires BuildFrom(dir, rs).Ok?
    ensures var d := BuildFrom(dir, rs).value;
            var f := FirstCarrier(rs, id);
            && (id in d <==> id in dir || f.Some?)
            && (id !in dir && f.Some? ==> EntryOf(rs[f.value]) == Some(d[id]))
    decreases |rs|
  {
    if |rs| > 0 {
      var dir' := AddUser(dir, rs[0]).value;
      BuildFromFirstSeenWins(dir', rs[1..], id);
      if Carries(rs[0], id) && id !in dir {
        assert dir' == dir[id := EntryOf(rs[0]).value];
      }
    }
  }

  /**
   * Record `i` raises when the scan reaches it: it is malformed, and either it
   * has no `user` or it is the first contributing record for an id not yet
   * listed, so the `not in users` test lets it through to the profile keys.
   */
  predicate FatalAt(dir: Directory, rs: seq<Record>, i: nat)
    requires i < |rs|
  {
    Malformed(rs[i]) &&
    (rs[i].user.Some? ==> rs[i].user.value !in dir && FirstCarrier(rs, rs[i].user.value) == Some(i))
  }

  /**
   * A scan fails iff some record is fatal: a contributing record without
   * `user`, or the first contributing record of a new id without `real_name`
   * or `image_72`. Later malformed records for a listed id are never read.
   */
  lemma {:induction false} BuildFromFails(dir: Directory, rs: seq<Record>)
    ensures BuildFrom(dir, rs).Err? <==> exists i :: 0 <= i < |rs| && FatalAt(dir, rs, i)
    decreases |rs|
  {
    if |rs| > 0 {
      if AddUser(dir, rs[0]).Err? {
        assert FatalAt(dir, rs, 0);
      } else {
        var dir' := AddUser(dir, rs[0]).value;
        BuildFromFails(dir', rs[1..]);
        assert !FatalAt(dir, rs, 0);
        forall i | 0 < i < |rs|
          ensures FatalAt(dir, rs, i) <==> FatalAt(dir', rs[1..], i - 1)
        {
          FatalShift(dir, rs, i);
        }
        if exists i :: 0 <= i < |rs[1..]| && FatalAt(dir', rs[1..], i) {
          var i :| 0 <= i < |rs[1..]| && FatalAt(dir', rs[1..], i);
          assert FatalAt(dir, rs, i + 1);
        }
      }
    }
  }

  /** Past a first record the scan accepts, a record is fatal iff it is fatal for the rest of the scan. */
  lemma FatalShift(dir: Directory, rs: seq<Record>, i: nat)
    requires 0 < i < |rs| && AddUser(dir, rs[0]).Ok?
    ensures FatalAt(dir, rs, i) <==> FatalAt(AddUser(dir, rs[0]).value, rs[1..], i - 1)
  {
    var dir' := AddUser(dir, rs[0]).value;
    assert rs[1..][i - 1] == rs[i];
    if rs[i].user.Some? {
      var id := rs[i].user.value;
      if !Carries(rs[0], id) {
        assert id in dir' <==> id in dir;
      }
    }
  }

  /** Some record of the export is fatal for the scan from an empty directory. */
  ghost predicate ExportFatal(channels: seq<ChannelExport>)
  {
    exists i :: 0 <= i < |AllRecords(channels)| && FatalAt(NoUsers, AllRecords(channels), i)
  }

  /** `getUsers` fails iff some record of the export is fatal for the scan from an empty directory. */
  lemma GetUsersFails(channels: seq<ChannelExport>)
    ensures GetUsers(channels).Err? <==> ExportFatal(channels)
  {
    BuildFromFails(NoUsers, AllRecords(channels));
  }

  /** A contributing record without a `user` key aborts the scan wherever it stands. */
  lemma {:induction false} MissingUserIdIsFatal(dir: Directory, rs: seq<Record>, i: nat)
    requires i < |rs| && Contributes(rs[i]) && rs[i].user.None?
    ensures BuildFrom(dir, rs).Err?
    decreases |rs|
  {
    if i > 0 && AddUser(dir, rs[0]).Ok? {
      MissingUserIdIsFatal(AddUser(dir, rs[0]).value, rs[1..], i - 1);
    }
  }

  /** Scanning `a + b` is scanning `a`, then scanning `b` from its directory. */
  lemma {:induction false} BuildFromAppend(dir: Directory, a: seq<Record>, b: seq<Record>)
    ensures BuildFrom(dir, a + b) == match BuildFrom(dir, a)
                                     case Err(e) => Err(e)
                                     case Ok(d) => BuildFrom(d, b)
    decreases |a|
  {
    if |a| > 0 {
      assert (a + b)[0] == a[0] && (a + b)[1..] == a[1..] + b;
      if AddUser(dir, a[0]).Ok? {
        BuildFromAppend(AddUser(dir, a[0]).value, a[1..], b);
      }
    } else {
      assert a + b == b;
    }
  }

  /** A later record for an id already listed changes nothing, whatever its profile says. */
  lemma LaterRecordLeavesEntry(dir: Directory, rs: seq<Record>, r: Record, id: string)
    requires BuildFrom(dir, rs).Ok? && id in BuildFrom(dir, rs).value
    requires Carries(r, id)
    ensures BuildFrom(dir, rs + [r]) == BuildFrom(dir, rs)
  {
    BuildFromAppend(dir, rs, [r]);
  }

  /** A bot record that has a profile is listed like any other author. */
  lemma BotWithProfileIsListed(r: Record, id: string, u: User)
    requires r.hasBotId && !r.hasSubtype && r.user == Some(id) && EntryOf(r) == Some(u)
    ensures BuildFrom(map[], [r]) == Ok(map[id := u])
  {
  }
}
