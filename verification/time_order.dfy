/**
 * The per-channel `sort(key=itemgetter('time'))` of `Engine.getData`: a stable
 * sort by timestamp, written as an insertion sort and characterised as the
 * unique sorted sequence that keeps, for every timestamp, the reading order.
 */
module TimeOrder {
  import opened SlackExport

  /** Timestamps are non-decreasing. */
  predicate Sorted(ms: seq<Message>)
  {
    forall i, j :: 0 <= i < j < |ms| ==> ms[i].time <= ms[j].time
  }

  /** The messages stamped `t`, in the order they appear. */
  function WithTime(ms: seq<Message>, t: int): seq<Message>
  {
    if |ms| == 0 then []
    else (if ms[0].time == t then [ms[0]] else []) + WithTime(ms[1..], t)
  }

  /** Prepending a message not later than the head keeps a sequence sorted. */
  lemma PrependSorted(m: Message, ms: seq<Message>)
    requires Sorted(ms) && (|ms| > 0 ==> m.time <= ms[0].time)
    ensures Sorted([m] + ms)
  {
    forall i, j | 0 <= i < j < |[m] + ms|
      ensures ([m] + ms)[i].time <= ([m] + ms)[j].time
    {
      if i == 0 && j > 1 {
        assert ms[0].time <= ms[j - 1].time;
      }
    }
  }

  /** Places `m` before the first message that is not earlier than it. */
  function Insert(m: Message, ms: seq<Message>): (r: seq<Message>)
    requires Sorted(ms)
    ensures Sorted(r)
    ensures multiset(r) == multiset(ms) + multiset{m}
    ensures r[0] == m || (|ms| > 0 && r[0] == ms[0])
  {
    if |ms| == 0 || m.time <= ms[0].time then
      PrependSorted(m, ms);
      [m] + ms
    else
      var tail := Insert(m, ms[1..]);
      assert ms == [ms[0]] + ms[1..];
      assert |ms| > 1 ==> ms[0].time <= ms[1].time;
      PrependSorted(ms[0], tail);
      [ms[0]] + tail
  }

  /** Insertion sort; an earlier message is inserted in front of every later one with its timestamp. */
  function SortByTime(ms: seq<Message>): (r: seq<Message>)
    ensures Sorted(r)
    ensures multiset(r) == multiset(ms)
  {
    if |ms| == 0 then []
    else
      assert ms == [ms[0]] + ms[1..];
      Insert(ms[0], SortByTime(ms[1..]))
  }

  /**
   * Inserting `m` puts it in front of every message with its timestamp and
   * keeps the order of the others: the step that makes the sort stable.
   */
  lemma {:induction false} InsertKeepsTimeOrder(m: Message, ms: seq<Message>, t: int)
    requires Sorted(ms)
    ensures WithTime(Insert(m, ms), t) == (if m.time == t then [m] else []) + WithTime(ms, t)
    decreases |ms|
  {
    if |ms| == 0 || m.time <= ms[0].time {
      WithTimeCons(m, ms, t);
    } else {
      var tail := Insert(m, ms[1..]);
      var own, first := (if m.time == t then [m] else []), (if ms[0].time == t then [ms[0]] else []);
      assert Insert(m, ms) == [ms[0]] + tail;
      WithTimeCons(ms[0], tail, t);
      InsertKeepsTimeOrder(m, ms[1..], t);
      SwapEmpty(first, own, WithTime(ms[1..], t));
    }
  }

  /** Two sequences of which one is empty commute in front of a third. */
  lemma SwapEmpty(a: seq<Message>, b: seq<Message>, c: seq<Message>)
    requires a == [] || b == []
    ensures a + (b + c) == b + (a + c)
  {
  }

  /** The messages stamped `t` of a sequence with a first element. */
  lemma WithTimeCons(x: Message, xs: seq<Message>, t: int)
    ensures WithTime([x] + xs, t) == (if x.time == t then [x] else []) + WithTime(xs, t)
  {
    assert ([x] + xs)[1..] == xs;
  }

  /** Stability: for every timestamp, the messages carrying it keep their reading order. */
  lemma {:induction false} SortIsStable(ms: seq<Message>, t: int)
    ensures WithTime(SortByTime(ms), t) == WithTime(ms, t)
    decreases |ms|
  {
    if |ms| > 0 {
      SortIsStable(ms[1..], t);
      InsertKeepsTimeOrder(ms[0], SortByTime(ms[1..]), t);
    }
  }

  /** The messages of timestamp `t` are exactly the members of `ms` that carry it. */
  lemma {:induction false} WithTimeMembers(ms: seq<Message>, t: int)
    ensures forall m :: m in WithTime(ms, t) <==> m in ms && m.time == t
    decreases |ms|
  {
    if |ms| > 0 {
      WithTimeMembers(ms[1..], t);
      assert ms == [ms[0]] + ms[1..];
    }
  }

  /** In a sorted sequence, the first message carries the least timestamp. */
  lemma SortedHeadIsLeast(ms: seq<Message>, m: Message)
    requires Sorted(ms) && m in ms
    ensures ms[0].time <= m.time
  {
    var i :| 0 <= i < |ms| && ms[i] == m;
    if i > 0 {
      assert ms[0].time <= ms[i].time;
    }
  }

  /**
   * Uniqueness: two sorted sequences that agree on every timestamp's
   * subsequence are equal. So `SortByTime` returns exactly what any stable sort
   * by time, Python's `list.sort` included, returns.
   */
  lemma {:induction false} StableSortIsUnique(a: seq<Message>, b: seq<Message>)
    requires Sorted(a) && Sorted(b)
    ensures (forall t :: WithTime(a, t) == WithTime(b, t)) ==> a == b
    decreases |a|
  {
    if |a| == 0 && |b| > 0 {
      assert WithTime(a, b[0].time) != WithTime(b, b[0].time);
    } else if |a| > 0 && |b| == 0 {
      assert WithTime(a, a[0].time) != WithTime(b, a[0].time);
    } else if |a| > 0 && forall t :: WithTime(a, t) == WithTime(b, t) {
      WithTimeMembers(a, b[0].time);
      WithTimeMembers(b, b[0].time);
      WithTimeMembers(a, a[0].time);
      WithTimeMembers(b, a[0].time);
      assert WithTime(a, a[0].time)[0] == a[0];
      assert a[0] in WithTime(b, a[0].time);
      assert b[0] in WithTime(a, b[0].time);
      SortedHeadIsLeast(a, b[0]);
      SortedHeadIsLeast(b, a[0]);
      assert WithTime(b, b[0].time)[0] == b[0];
      forall t
        ensures WithTime(a[1..], t) == WithTime(b[1..], t)
      {
        var head := if a[0].time == t then [a[0]] else [];
        assert WithTime(a, t) == head + WithTime(a[1..], t);
        assert WithTime(b, t) == head + WithTime(b[1..], t);
        assert (head + WithTime(a[1..], t))[|head|..] == WithTime(a[1..], t);
        assert (head + WithTime(b[1..], t))[|head|..] == WithTime(b[1..], t);
      }
      StableSortIsUnique(a[1..], b[1..]);
      assert a == [a[0]] + a[1..] && b == [b[0]] + b[1..];
    }
  }

  /** Sorting is the stable sort: any sorted sequence keeping each timestamp's reading order is `SortByTime(ms)`. */
  lemma StableSortCharacterised(ms: seq<Message>, r: seq<Message>)
    requires Sorted(r) && forall t :: WithTime(r, t) == WithTime(ms, t)
    ensures r == SortByTime(ms)
  {
    forall t
      ensures WithTime(r, t) == WithTime(SortByTime(ms), t)
    {
      SortIsStable(ms, t);
    }
    StableSortIsUnique(r, SortByTime(ms));
  }
}
