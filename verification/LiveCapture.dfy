/** The thread that reads an interface and hands batches to the table without ever waiting
    for it. A full queue discards a batch and counts it. In the long mode the records go to
    a recorder, and copies of them to the table. */
module LiveCapture {
  const BATCH := 256

  datatype Poll<R> = Packet(record: R) | Idle | End | Broken

  /** What became of a batch: queued, refused by a full queue, or refused because nobody
      listens any more. */
  datatype Fate = Queued | Full | Gone

  datatype Flushed<R> = Flushed(batch: seq<R>, fate: Fate)

  datatype Ending = Interrupted | Ended | Failed

  /** What `poll_batch` delivers: records, even when it ends with something else. */
  datatype State = Ready | Waiting | Over | Failing
  datatype BatchPoll<R> = BatchPoll(records: seq<R>, state: State)

  function Copies<R>(polls: seq<BatchPoll<R>>): seq<R> {
    if polls == [] then [] else Copies(polls[..|polls| - 1]) + polls[|polls| - 1].records
  }

  function Packets<R>(polls: seq<Poll<R>>): seq<R> {
    if polls == [] then []
    else
      var last := polls[|polls| - 1];
      Packets(polls[..|polls| - 1]) + Taken(last)
  }

  function Taken<R>(poll: Poll<R>): seq<R> {
    if poll.Packet? then [poll.record] else []
  }

  function Joined<R>(log: seq<Flushed<R>>): seq<R> {
    if log == [] then [] else Joined(log[..|log| - 1]) + log[|log| - 1].batch
  }

  function SizeOf<R>(f: Flushed<R>, fate: Fate): nat {
    if f.fate == fate then |f.batch| else 0
  }

  /** How many records met that fate. */
  function Count<R>(log: seq<Flushed<R>>, fate: Fate): nat {
    if log == [] then 0 else Count(log[..|log| - 1], fate) + SizeOf(log[|log| - 1], fate)
  }

  /** What the table gets. */
  function Delivered<R>(log: seq<Flushed<R>>): seq<R> {
    if log == [] then []
    else Delivered(log[..|log| - 1]) + if log[|log| - 1].fate.Queued? then log[|log| - 1].batch else []
  }

  ghost predicate Batches<R>(log: seq<Flushed<R>>) {
    forall k | 0 <= k < |log| :: 0 < |log[k].batch| <= BATCH
  }

  lemma {:induction false} EveryRecordHasAFate<R>(log: seq<Flushed<R>>)
    ensures |Joined(log)| == Count(log, Queued) + Count(log, Full) + Count(log, Gone)
    ensures |Delivered(log)| == Count(log, Queued)
  {
    if log != [] { EveryRecordHasAFate(log[..|log| - 1]); }
  }

  class Reader<R> {
    var batch: seq<R>
    /** The counter that the page shows. */
    var dropped: nat
    ghost var log: seq<Flushed<R>>
    /** How often the thread was found to be stopped, or the page gone. */
    ghost var stops: nat

    /** The records taken from the interface so far, and the counter. */
    ghost predicate Accounts(taken: seq<R>)
      reads `log, `batch, `dropped
    {
      Joined(log) + batch == taken && dropped == Count(log, Full)
    }

    /** Batches as the diagnostic mode makes them. */
    ghost predicate Bounded()
      reads `log, `batch
    {
      Batches(log) && |batch| <= BATCH
    }

    constructor ()
      ensures Accounts([]) && Bounded() && batch == [] && log == []
    {
      batch, dropped, log, stops := [], 0, [], 0;
    }

    method Stopped() returns (yes: bool)
      modifies `stops
      ensures stops == if yes then old(stops) + 1 else old(stops)
    {
      yes := *;
      if yes { stops := stops + 1; }
    }

    method Flush(ghost taken: seq<R>)
      requires Accounts(taken)
      modifies `log, `batch, `dropped
      ensures Accounts(taken) && batch == [] && (old(Bounded()) ==> Bounded())
    {
      if |batch| == 0 { return; }
      var packets := batch;
      batch := [];
      var count := |packets|;
      var fate := *;
      if fate == Full { dropped := dropped + count; }
      ghost var was := log;
      log := log + [Flushed(packets, fate)];
      assert log[..|log| - 1] == was;
      assert Joined(log) + [] == Joined(was) + packets;
    }

    /** The loop of `run`. Whatever the queue does and however it ends, every record taken is
        in exactly one batch, in order, and the counter is the number refused by a full
        queue; so the records that are neither shown nor counted are those of batches sent
        when nobody listened any more. */
    method Run(polls: seq<Poll<R>>) returns (ending: Ending, ghost taken: nat)
      requires Accounts([]) && Bounded() && batch == [] && log == []
      modifies this
      ensures taken <= |polls| && batch == []
      ensures Joined(log) == Packets(polls[..taken]) && Batches(log)
      ensures dropped == Count(log, Full)
      ensures |Delivered(log)| + dropped + Count(log, Gone) == |Packets(polls[..taken])|
      ensures forall k | 0 <= k < taken :: !polls[k].End? && !polls[k].Broken?
      ensures ending.Ended? ==> taken < |polls| && polls[taken].End?
      ensures ending.Failed? ==> taken < |polls| && polls[taken].Broken?
      ensures ending.Interrupted? && taken < |polls| ==> stops > old(stops)
    {
      hide Accounts, Bounded, Joined, Delivered, Count, Batches;
      var n := 0;
      ending := Interrupted;
      assert polls[..0] == [];
      while n < |polls| && ending.Interrupted?
        invariant n <= |polls| && Accounts(Packets(polls[..n]))
        invariant Bounded() && |batch| < BATCH
        invariant stops >= old(stops)
        invariant forall k | 0 <= k < n :: !polls[k].End? && !polls[k].Broken?
        invariant ending.Ended? ==> n < |polls| && polls[n].End?
        invariant ending.Failed? ==> n < |polls| && polls[n].Broken?
        decreases |polls| - n, ending.Interrupted?
      {
        assert polls[..n + 1][..n] == polls[..n];
        var stop := Stopped();
        if stop { break; }
        match polls[n] {
          case End => ending := Ended;
          case Broken => ending := Failed;
          case _ =>
            Take(polls[n], Packets(polls[..n]));
            assert Packets(polls[..n + 1]) == Packets(polls[..n]) + Taken(polls[n]);
            n := n + 1;
        }
      }
      Finish(Packets(polls[..n]));
      taken := n;
    }

    method Finish(ghost taken: seq<R>)
      requires Accounts(taken) && Bounded()
      modifies `log, `batch, `dropped
      ensures batch == [] && Joined(log) == taken && Batches(log) && dropped == Count(log, Full)
      ensures |Delivered(log)| + dropped + Count(log, Gone) == |taken|
    {
      Flush(taken);
      assert Joined(log) + [] == Joined(log);
      EveryRecordHasAFate(log);
    }

    /** One record, or nothing for now: what is held back is sent when it is due, when it is
        enough, and whenever nothing else comes. */
    method Take(poll: Poll<R>, ghost taken: seq<R>)
      requires (poll.Packet? || poll.Idle?) && Accounts(taken) && Bounded() && |batch| < BATCH
      modifies `log, `batch, `dropped
      ensures Accounts(taken + Taken(poll)) && Bounded()
      ensures batch != [] ==> poll.Packet? && |batch| < BATCH
    {
      if poll.Packet? {
        var due := *;
        assert Joined(log) + (batch + [poll.record]) == Joined(log) + batch + [poll.record];
        batch := batch + [poll.record];
        if |batch| >= BATCH || due { Flush(taken + [poll.record]); }
      } else {
        assert taken + [] == taken;
        Flush(taken);
      }
    }

    /** `Tee::poll_batch`: copies are held back until they are due, enough, or nothing waits. */
    method Copy(poll: BatchPoll<R>, ghost taken: seq<R>)
      requires Accounts(taken)
      modifies `log, `batch, `dropped
      ensures Accounts(taken + poll.records)
      ensures batch != [] ==> poll.state.Ready? && |batch| < BATCH
    {
      var due := *;
      assert Joined(log) + (batch + poll.records) == Joined(log) + batch + poll.records;
      batch := batch + poll.records;
      if !poll.state.Ready? || |batch| >= BATCH || due { Flush(taken + poll.records); }
    }

    /** The long mode: the recorder's reading loop over `Tee::poll_batch`. Every copy is in
        one batch, in order, or still held back; what is held back when the recorder stops is
        neither shown nor counted. That happens only when it stops right after a batch that
        was ready, too early and too small to be sent. */
    method Record(polls: seq<BatchPoll<R>>) returns (ending: Ending, ghost taken: nat)
      requires Accounts([]) && batch == [] && log == []
      modifies this
      ensures taken <= |polls|
      ensures Joined(log) + batch == Copies(polls[..taken])
      ensures dropped == Count(log, Full)
      ensures |Delivered(log)| + dropped + Count(log, Gone) + |batch| == |Copies(polls[..taken])|
      ensures batch != [] ==> ending.Interrupted? && taken > 0 && polls[taken - 1].state.Ready? && |batch| < BATCH
      ensures ending.Ended? ==> taken > 0 && polls[taken - 1].state.Over?
      ensures ending.Failed? ==> taken > 0 && polls[taken - 1].state.Failing?
      ensures ending.Interrupted? ==> forall k | 0 <= k < taken :: polls[k].state.Ready? || polls[k].state.Waiting?
      ensures ending.Interrupted? && taken < |polls| ==> stops > old(stops)
    {
      hide Accounts, Joined, Delivered, Count;
      var n := 0;
      ending := Interrupted;
      assert polls[..0] == [];
      while n < |polls| && ending.Interrupted?
        invariant n <= |polls| && Accounts(Copies(polls[..n]))
        invariant batch != [] ==> ending.Interrupted? && n > 0 && polls[n - 1].state.Ready? && |batch| < BATCH
        invariant ending.Ended? ==> n > 0 && polls[n - 1].state.Over?
        invariant ending.Failed? ==> n > 0 && polls[n - 1].state.Failing?
        invariant ending.Interrupted? ==> forall k | 0 <= k < n :: polls[k].state.Ready? || polls[k].state.Waiting?
        invariant stops >= old(stops)
        decreases |polls| - n
      {
        var stop := Stopped();
        if stop { break; }
        assert polls[..n + 1][..n] == polls[..n];
        Copy(polls[n], Copies(polls[..n]));
        ending := match polls[n].state case Over => Ended case Failing => Failed case _ => Interrupted;
        n := n + 1;
        var gone := Stopped();
        if gone && ending.Interrupted? { break; }
      }
      Account(Copies(polls[..n]));
      taken := n;
    }

    lemma Account(taken: seq<R>)
      requires Accounts(taken)
      ensures Joined(log) + batch == taken && dropped == Count(log, Full)
      ensures |Delivered(log)| + dropped + Count(log, Gone) + |batch| == |taken|
    {
      EveryRecordHasAFate(log);
    }
  }

  /** In the long mode copies are lost without being counted exactly when a batch met a
      closed channel or some were held back at the end. */
  lemma UncountedCopiesExactly<R>(log: seq<Flushed<R>>, held: seq<R>)
    ensures |Delivered(log)| + Count(log, Full) == |Joined(log) + held|
       <==> held == [] && forall k | 0 <= k < |log| && |log[k].batch| > 0 :: !log[k].fate.Gone?
  {
    EveryRecordHasAFate(log);
    GoneIffNonzero(log);
  }

  /** Records can be lost without being counted: the queue is gone before the thread knows. */
  lemma UncountedExactly<R>(log: seq<Flushed<R>>)
    ensures |Delivered(log)| + Count(log, Full) == |Joined(log)| <==> forall k | 0 <= k < |log| && |log[k].batch| > 0 :: !log[k].fate.Gone?
  {
    EveryRecordHasAFate(log);
    GoneIffNonzero(log);
  }

  lemma {:induction false} GoneIffNonzero<R>(log: seq<Flushed<R>>)
    ensures Count(log, Gone) == 0 <==> forall k | 0 <= k < |log| && |log[k].batch| > 0 :: !log[k].fate.Gone?
  {
    if log != [] {
      var before := log[..|log| - 1];
      GoneIffNonzero(before);
      assert forall k | 0 <= k < |before| :: before[k] == log[k];
    }
  }
}
