/**
 * `DiscordClient.splitMessage`: cuts a long text at the rightmost period
 * below the limit, again and again, and ends with one hard cut of
 * `length - 1` characters. Whatever the hard cut leaves behind is lost; the
 * model keeps that behaviour and states the loss exactly.
 */
module MessageSplit {
  import opened Base
  import opened Text

  /** Python's `message[:length-1]` for a positive `length`. */
  function HardCut(message: string, length: nat): (chunk: string)
    requires length >= 1
    ensures |chunk| <= length - 1 && |chunk| <= |message|
    ensures chunk == message[..|chunk|]
    ensures |chunk| == |message| || |chunk| == length - 1
  {
    message[..Min(length - 1, |message|)]
  }

  /** The highest index below `bound` holding `c`. */
  function LastBefore(s: string, c: char, bound: nat): (r: Option<nat>)
    requires bound <= |s|
    ensures r.Some? ==> r.value < bound && s[r.value] == c
    ensures r.Some? ==> forall q :: r.value < q < bound ==> s[q] != c
    ensures r.None? ==> forall q :: 0 <= q < bound ==> s[q] != c
  {
    if bound == 0 then None
    else if s[bound - 1] == c then Some(bound - 1)
    else LastBefore(s, c, bound - 1)
  }

  /**
   * The rightmost period at an index below `length` (the first `p < length`
   * met while walking the period indices downwards).
   */
  function RightmostPeriod(message: string, length: nat): (r: Option<nat>)
    ensures r.Some? ==> r.value < length && r.value < |message| && message[r.value] == '.'
    ensures r.Some? ==> forall q :: r.value < q < |message| && q < length ==> message[q] != '.'
    ensures r.None? ==> forall q :: 0 <= q < |message| && q < length ==> message[q] != '.'
  {
    LastBefore(message, '.', Min(|message|, length))
  }

  /**
   * One decision of the loop: the test `"." in message`, then the downward
   * walk. `None` means the loop takes the hard cut and stops.
   */
  function NextCut(message: string, length: nat): Option<nat>
  {
    if '.' !in message then None else RightmostPeriod(message, length)
  }

  /** The `"." in message` test changes nothing: without a period there is no rightmost one either. */
  lemma NextCutIsRightmostPeriod(message: string, length: nat)
    ensures NextCut(message, length) == RightmostPeriod(message, length)
  {
  }

  /** `splitMessage(message, length)`. */
  function SplitMessage(message: string, length: nat): (parts: seq<string>)
    requires length >= 1
    ensures |parts| >= 1
    ensures forall i :: 0 <= i < |parts| ==> |parts[i]| <= length - 1
    decreases |message|
  {
    match NextCut(message, length)
    case None => [HardCut(message, length)]
    case Some(p) => [message[..p]] + SplitMessage(message[p + 1..], length)
  }

  /** The remainder the loop holds when it takes the hard cut and stops. */
  function FinalRemainder(message: string, length: nat): (rest: string)
    requires length >= 1
    ensures |rest| <= |message|
    decreases |message|
  {
    match NextCut(message, length)
    case None => message
    case Some(p) => FinalRemainder(message[p + 1..], length)
  }

  /** The text the loop discards: the final remainder from index `length - 1` on. */
  function Lost(message: string, length: nat): string
    requires length >= 1
  {
    var rest := FinalRemainder(message, length);
    rest[|HardCut(rest, length)|..]
  }

  /** One period split, as the loop performs it. */
  lemma PeriodStep(message: string, length: nat, p: nat)
    requires length >= 1 && NextCut(message, length) == Some(p)
    ensures p < |message| && message[p] == '.'
    ensures SplitMessage(message, length) == [message[..p]] + SplitMessage(message[p + 1..], length)
    ensures FinalRemainder(message, length) == FinalRemainder(message[p + 1..], length)
    ensures Lost(message, length) == Lost(message[p + 1..], length)
  {
  }

  /** The hard cut that ends the loop. */
  lemma Stop(message: string, length: nat)
    requires length >= 1 && NextCut(message, length).None?
    ensures SplitMessage(message, length) == [HardCut(message, length)]
    ensures FinalRemainder(message, length) == message
  {
  }

  /**
   * Reconstruction: re-inserting the consumed periods between the chunks gives
   * the input up to the lost tail, so the chunks joined by `.` are a prefix of
   * the input and everything after that prefix is `Lost`.
   */
  lemma {:induction false} SplitThenJoin(message: string, length: nat)
    requires length >= 1
    ensures JoinWith(SplitMessage(message, length), ".") + Lost(message, length) == message
    decreases |message|
  {
    match NextCut(message, length)
    case Some(p) =>
      var rest := message[p + 1..];
      PeriodStep(message, length, p);
      SplitThenJoin(rest, length);
      JoinCons(message[..p], SplitMessage(rest, length), ".");
      Reassemble(message, p, JoinWith(SplitMessage(rest, length), "."), Lost(rest, length));
    case None =>
      var cut := HardCut(message, length);
      Stop(message, length);
      assert cut + message[|cut|..] == message;
  }

  /** Putting the period back between a chunk and the rebuilt remainder. */
  lemma Reassemble(message: string, p: nat, joined: string, lost: string)
    requires p < |message| && message[p] == '.'
    requires joined + lost == message[p + 1..]
    ensures message[..p] + "." + joined + lost == message
  {
    assert message == message[..p] + [message[p]] + message[p + 1..];
  }

  /** Joining a chunk in front of a non-empty list puts one separator between them. */
  lemma JoinCons(chunk: string, tail: seq<string>, sep: string)
    requires |tail| >= 1
    ensures JoinWith([chunk] + tail, sep) == chunk + sep + JoinWith(tail, sep)
  {
    assert ([chunk] + tail)[1..] == tail;
  }

  /** The joined chunks are a prefix of the input. */
  lemma JoinIsPrefix(message: string, length: nat)
    requires length >= 1
    ensures var joined := JoinWith(SplitMessage(message, length), ".");
            |joined| <= |message| && joined == message[..|joined|]
  {
    SplitThenJoin(message, length);
  }

  /** The chunks the loop emits at periods, in order. */
  function PeriodChunks(message: string, length: nat): seq<string>
    decreases |message|
  {
    match NextCut(message, length)
    case None => []
    case Some(p) => [message[..p]] + PeriodChunks(message[p + 1..], length)
  }

  /**
   * The shape of the result: the chunks cut at periods, then exactly one hard
   * cut, of the final remainder.
   */
  lemma {:induction false} SplitShape(message: string, length: nat)
    requires length >= 1
    ensures SplitMessage(message, length) == PeriodChunks(message, length) + [HardCut(FinalRemainder(message, length), length)]
    decreases |message|
  {
    match NextCut(message, length)
    case Some(p) =>
      var rest := message[p + 1..];
      PeriodStep(message, length, p);
      SplitShape(rest, length);
      assert [message[..p]] + (PeriodChunks(rest, length) + [HardCut(FinalRemainder(rest, length), length)])
          == [message[..p]] + PeriodChunks(rest, length) + [HardCut(FinalRemainder(rest, length), length)];
    case None =>
      Stop(message, length);
  }

  /** The last chunk is the hard cut of the final remainder, and nothing follows it. */
  lemma LastChunkIsHardCut(message: string, length: nat)
    requires length >= 1
    ensures var parts := SplitMessage(message, length);
            parts[|parts| - 1] == HardCut(FinalRemainder(message, length), length)
  {
    SplitShape(message, length);
  }

  /** Text is lost exactly when the final remainder is at least `length` characters long. */
  lemma LossIsExact(message: string, length: nat)
    requires length >= 1
    ensures |Lost(message, length)| > 0 <==> |FinalRemainder(message, length)| >= length
    ensures |Lost(message, length)| > 0 ==>
              |Lost(message, length)| == |FinalRemainder(message, length)| - (length - 1)
  {
  }

  /** Every chunk but the last consumes one period, so the chunk count is bounded by the periods. */
  lemma {:induction false} ChunksBoundedByPeriods(message: string, length: nat)
    requires length >= 1
    ensures |SplitMessage(message, length)| <= multiset(message)['.'] + 1
    decreases |message|
  {
    match NextCut(message, length)
    case Some(p) =>
      PeriodStep(message, length, p);
      ChunksBoundedByPeriods(message[p + 1..], length);
      PeriodCountDrops(message, p);
    case None =>
      Stop(message, length);
  }

  /** Cutting at a period leaves a remainder with fewer periods: the split loop terminates. */
  lemma PeriodCountDrops(message: string, p: nat)
    requires p < |message| && message[p] == '.'
    ensures multiset(message[p + 1..])['.'] < multiset(message)['.']
  {
    assert message == message[..p] + [message[p]] + message[p + 1..];
    assert multiset(message) == multiset(message[..p]) + multiset{'.'} + multiset(message[p + 1..]);
  }

  /** A text without a period comes back as its first `length - 1` characters, the rest being lost. */
  lemma NoPeriodIsOneHardCut(message: string, length: nat)
    requires length >= 1 && '.' !in message
    ensures SplitMessage(message, length) == [HardCut(message, length)]
    ensures Lost(message, length) == message[|HardCut(message, length)|..]
  {
    Stop(message, length);
  }

  /** A text shorter than the limit and free of periods comes back whole, as one chunk. */
  lemma ShortTextWithoutPeriodIsOneChunk(message: string, length: nat)
    requires length >= 1 && '.' !in message && |message| < length
    ensures SplitMessage(message, length) == [message]
  {
    Stop(message, length);
    assert HardCut(message, length) == message[..|message|] == message;
  }

  /** A short text that holds a period is still cut at it: `"a.b"` yields two chunks. */
  lemma ShortTextWithPeriodIsCut()
    ensures SplitMessage("a.b", 1024) == ["a", "b"]
  {
    var m := "a.b";
    assert m[1] == '.' && m[2] != '.';
    assert RightmostPeriod(m, 1024) == Some(1);
    assert NextCut(m, 1024) == Some(1);
    PeriodStep(m, 1024, 1);
    assert m[..1] == "a" && m[2..] == "b";
    assert '.' !in "b";
    Stop("b", 1024);
    assert HardCut("b", 1024) == "b";
  }

  /** The walk `for p in reversed(res)` down from `bound`: stops just above the rightmost period below it. */
  method ScanDown(s: string, bound: nat) returns (p: nat)
    requires bound <= |s|
    ensures p <= bound
    ensures (if p > 0 then Some(p - 1) else None) == LastBefore(s, '.', bound)
  {
    p := bound;
    while p > 0 && s[p - 1] != '.'
      invariant p <= bound
      invariant LastBefore(s, '.', p) == LastBefore(s, '.', bound)
      decreases p
    {
      p := p - 1;
    }
  }

  /**
   * The loop as written: `while True`, the downward walk over the period
   * indices, and the two `break`s of the hard cut.
   */
  method SplitMessageLoop(message: string, length: nat) returns (split: seq<string>)
    requires length >= 1
    ensures split == SplitMessage(message, length)
  {
    split := [];
    var rest := message;
    while true
      invariant split + SplitMessage(rest, length) == SplitMessage(message, length)
      decreases |rest|
    {
      if '.' in rest {
        var p := ScanDown(rest, Min(|rest|, length));
        if p > 0 {
          var chunk := rest[..p - 1];
          assert NextCut(rest, length) == Some(p - 1);
          PeriodStep(rest, length, p - 1);
          assert split + [chunk] + SplitMessage(rest[p..], length) == split + ([chunk] + SplitMessage(rest[p..], length));
          split := split + [chunk];
          rest := rest[p..];
        } else {
          assert NextCut(rest, length).None?;
          Stop(rest, length);
          split := split + [HardCut(rest, length)];
          break;
        }
      } else {
        Stop(rest, length);
        split := split + [HardCut(rest, length)];
        break;
      }
    }
  }
}
