/** What a user of the bridge may rely on, read directly off the trace of a run. */
module BridgeTheorems {
  import opened Common
  import opened BridgeModel
  import opened BridgeSafety
  import opened BridgeLife

  /** The effects that end an accepted prompt of `c`. */
  predicate Ends(c: Conversation, e: Effect) {
    e == Emit(Done(c)) || e == Emit(Failed(c, Provider)) || e == Emit(LoggedOut)
  }

  predicate Accepts(c: Conversation, e: Effect) {
    e.Accepted? && e.conversation == c
  }

  predicate StartsTurn(e: Effect) {
    e.Send? && e.call.TurnStart?
  }

  predicate Begins(c: Conversation, e: Effect) {
    e.Send? && e.call.TurnStart? && e.call.conversation == c
  }

  ghost predicate Never(trace: seq<Effect>, lo: int, hi: int, p: Effect -> bool)
    requires 0 <= lo <= hi <= |trace|
  {
    forall k | lo <= k < hi :: !p(trace[k])
  }

  /** A trace that some conversation's observation accepts. */
  ghost predicate Seen(c: Conversation, trace: seq<Effect>) {
    Watch(c, START, trace).life != Broken
  }

  lemma SeenPrefix(c: Conversation, trace: seq<Effect>, k: nat)
    requires Seen(c, trace) && k < |trace|
    ensures Seen(c, trace[..k]) && Seen(c, trace[..k + 1])
    ensures Watch(c, START, trace[..k + 1]) == See(c, Watch(c, START, trace[..k]), trace[k])
  {
    PrefixUnbroken(c, START, trace, k);
    PrefixUnbroken(c, START, trace, k + 1);
    assert trace[..k + 1][..k] == trace[..k];
  }

  // ----- what the observation remembers -----

  /** An accepted prompt that has not ended is open, unless its thread went to another. */
  lemma {:induction false} OpenUntilEnd(c: Conversation, trace: seq<Effect>, k: nat)
    requires Seen(c, trace) && !Watch(c, START, trace).displaced
    requires k < |trace| && trace[k].Accepted? && trace[k].conversation == c
    requires Never(trace, k + 1, |trace|, (e: Effect) => Ends(c, e))
    ensures
      var life := Watch(c, START, trace).life;
      (life.Waiting? || life.Running?) && life.text == trace[k].text && life.choice == trace[k].choice
  {
    var n := |trace| - 1;
    SeenPrefix(c, trace, n);
    assert trace[..n + 1] == trace;
    if k < n {
      OpenUntilEnd(c, trace[..n], k);
      assert !Ends(c, trace[n]);
    }
  }

  lemma {:induction false} WaitingHasOrigin(c: Conversation, trace: seq<Effect>) returns (k: nat)
    requires Watch(c, START, trace).life.Waiting?
    ensures k < |trace|
    ensures var life := Watch(c, START, trace).life; trace[k] == Accepted(c, life.text, life.choice)
    ensures Never(trace, k + 1, |trace|, (e: Effect) => Ends(c, e) || Begins(c, e) || Accepts(c, e))
  {
    var n := |trace| - 1;
    SeenPrefix(c, trace, n);
    assert trace[..n + 1] == trace;
    if Accepts(c, trace[n]) {
      k := n;
    } else {
      k := WaitingHasOrigin(c, trace[..n]);
      assert !Ends(c, trace[n]) && !Begins(c, trace[n]);
      forall j | k + 1 <= j < |trace| ensures !(Ends(c, trace[j]) || Begins(c, trace[j]) || Accepts(c, trace[j])) {
        if j < n { assert trace[..n][j] == trace[j]; }
      }
    }
  }

  /** A prompt that is open was accepted, and nothing has ended it since. */
  lemma {:induction false} OpenHasOrigin(c: Conversation, trace: seq<Effect>) returns (k: nat)
    requires Watch(c, START, trace).life.Waiting? || Watch(c, START, trace).life.Running?
    ensures k < |trace|
    ensures var life := Watch(c, START, trace).life; trace[k] == Accepted(c, life.text, life.choice)
    ensures Never(trace, k + 1, |trace|, (e: Effect) => Ends(c, e))
  {
    var n := |trace| - 1;
    SeenPrefix(c, trace, n);
    assert trace[..n + 1] == trace;
    if Accepts(c, trace[n]) {
      k := n;
    } else {
      k := OpenHasOrigin(c, trace[..n]);
      hide Watch;
      assert !Ends(c, trace[n]);
      forall j | k + 1 <= j < |trace| ensures !Ends(c, trace[j]) {
        if j < n { assert trace[..n][j] == trace[j]; }
      }
    }
  }

  /** What ends one prompt; a logout ends them all. */
  predicate Concludes(c: Conversation, e: Effect) {
    e == Emit(Done(c)) || e == Emit(Failed(c, Provider))
  }

  /** What settles the turn/start of `c` that is on the wire. */
  predicate Settles(c: Conversation, e: Effect) {
    e == Replied(c) || e == Emit(Failed(c, Provider)) || e == Emit(LoggedOut)
  }

  /** The turn/start sent last for `c` has not been settled. */
  predicate AwaitsAnswer(c: Conversation, trace: seq<Effect>) {
    trace != [] &&
    var e := trace[|trace| - 1];
    Begins(c, e) || (!Settles(c, e) && AwaitsAnswer(c, trace[..|trace| - 1]))
  }

  lemma {:induction false} AwaitingIsSeen(c: Conversation, trace: seq<Effect>)
    requires Seen(c, trace)
    ensures
      var life := Watch(c, START, trace).life;
      AwaitsAnswer(c, trace) <==> life.Draining? || (life.Running? && !life.replied)
  {
    if trace != [] {
      SeenPrefix(c, trace, |trace| - 1);
      assert trace[..|trace| - 1 + 1] == trace;
      AwaitingIsSeen(c, trace[..|trace| - 1]);
    }
  }

  /** A Done at `j` that came before the answer to its turn/start, and nothing since that
      would settle it. */
  ghost predicate DrainingSince(trace: seq<Effect>, c: Conversation, j: nat, hi: nat)
    requires j < hi <= |trace|
  {
    && trace[j] == Emit(Done(c)) && AwaitsAnswer(c, trace[..j])
    && Never(trace, j + 1, hi, (e: Effect) => Begins(c, e) || Settles(c, e))
  }

  lemma {:induction false} AfterEnd(c: Conversation, trace: seq<Effect>, j: nat)
    requires Seen(c, trace) && j < |trace| && Ends(c, trace[j])
    requires Never(trace, j + 1, |trace|, (e: Effect) => Accepts(c, e))
    ensures
      var life := Watch(c, START, trace).life;
      life.Idle? || (life.Draining? && DrainingSince(trace, c, j, |trace|))
  {
    var n := |trace| - 1;
    SeenPrefix(c, trace, n);
    assert trace[..n + 1] == trace;
    if j == n {
      AwaitingIsSeen(c, trace[..n]);
    } else {
      AfterEnd(c, trace[..n], j);
      assert !Accepts(c, trace[n]);
      DrainingGrows(c, trace, j);
    }
  }

  lemma DrainingGrows(c: Conversation, trace: seq<Effect>, j: nat)
    requires j < |trace| - 1
    ensures DrainingSince(trace, c, j, |trace|)
       <==> DrainingSince(trace[..|trace| - 1], c, j, |trace| - 1)
            && !Begins(c, trace[|trace| - 1]) && !Settles(c, trace[|trace| - 1])
  {
    var n := |trace| - 1;
    assert trace[..n][..j] == trace[..j];
    assert forall i | 0 <= i < n :: trace[..n][i] == trace[i];
  }

  lemma {:induction false} DrainingAcceptsNothing(c: Conversation, trace: seq<Effect>, j: nat)
    requires Seen(c, trace) && j < |trace| && DrainingSince(trace, c, j, |trace|)
    ensures Watch(c, START, trace).life.Draining?
    ensures Never(trace, j + 1, |trace|, (e: Effect) => Accepts(c, e))
  {
    var n := |trace| - 1;
    SeenPrefix(c, trace, n);
    assert trace[..n + 1] == trace;
    if j == n {
      AwaitingIsSeen(c, trace[..n]);
    } else {
      DrainingGrows(c, trace, j);
      DrainingAcceptsNothing(c, trace[..n], j);
      assert !Accepts(c, trace[n]);
      forall i | j + 1 <= i < |trace| ensures !Accepts(c, trace[i]) {
        if i < n { assert trace[..n][i] == trace[i]; }
      }
    }
  }

  lemma {:induction false} MutedUntilCleared(c: Conversation, trace: seq<Effect>, k: nat)
    requires Seen(c, trace) && k < |trace| && trace[k] == Muted(c)
    requires Never(trace, k + 1, |trace|, (e: Effect) => Accepts(c, e) || e == Unmuted(c))
    ensures Watch(c, START, trace).muted
  {
    var n := |trace| - 1;
    SeenPrefix(c, trace, n);
    assert trace[..n + 1] == trace;
    if k < n {
      MutedUntilCleared(c, trace[..n], k);
      assert !Accepts(c, trace[n]) && trace[n] != Unmuted(c);
    }
  }

  /** Bytes forwarded to `c` since its turn was last begun. */
  function Forwarded(c: Conversation, trace: seq<Effect>): nat {
    if trace == [] then 0
    else
      var before, e := trace[..|trace| - 1], trace[|trace| - 1];
      if Begins(c, e) then 0
      else if e.Emit? && e.event.Text? && e.event.conversation == c then Forwarded(c, before) + |e.event.text|
      else Forwarded(c, before)
  }

  lemma {:induction false} BytesAreForwarded(c: Conversation, trace: seq<Effect>)
    requires Seen(c, trace)
    ensures Watch(c, START, trace).life.Running? ==> Watch(c, START, trace).life.bytes == Forwarded(c, trace)
    ensures Forwarded(c, trace) <= MAX_ANSWER
  {
    if trace != [] {
      SeenPrefix(c, trace, |trace| - 1);
      assert trace[..|trace| - 1 + 1] == trace;
      BytesAreForwarded(c, trace[..|trace| - 1]);
    }
  }

  lemma {:induction false} BoundHasOrigin(c: Conversation, trace: seq<Effect>) returns (k: nat)
    requires Watch(c, START, trace).life.Running? && Watch(c, START, trace).life.turn.Some?
    ensures k < |trace| && trace[k] == Bound(c, Watch(c, START, trace).life.turn.value)
    ensures Never(trace, k + 1, |trace|, (e: Effect) => Ends(c, e) || Begins(c, e))
  {
    var n := |trace| - 1;
    SeenPrefix(c, trace, n);
    assert trace[..n + 1] == trace;
    if trace[n].Bound? && trace[n].conversation == c {
      k := n;
    } else {
      k := BoundHasOrigin(c, trace[..n]);
      assert !Ends(c, trace[n]) && !Begins(c, trace[n]);
      forall j | k + 1 <= j < |trace| ensures !(Ends(c, trace[j]) || Begins(c, trace[j])) {
        if j < n { assert trace[..n][j] == trace[j]; }
      }
    }
  }

  /** A turn is begun on that thread, by whomever. */
  predicate BeginsAt(thread: string, e: Effect) {
    StartsTurn(e) && e.call.thread == thread
  }

  /** A running turn was the last to be begun on its thread. */
  lemma {:induction false} RunningHasStart(c: Conversation, trace: seq<Effect>) returns (k: nat)
    requires Watch(c, START, trace).life.Running?
    ensures k < |trace| && Begins(c, trace[k]) && trace[k].call.thread == Watch(c, START, trace).life.thread
    ensures Never(trace, k + 1, |trace|, (e: Effect) => BeginsAt(trace[k].call.thread, e))
  {
    var n := |trace| - 1;
    SeenPrefix(c, trace, n);
    assert trace[..n + 1] == trace;
    if Begins(c, trace[n]) {
      k := n;
    } else {
      k := RunningHasStart(c, trace[..n]);
      hide Watch;
      assert !BeginsAt(trace[k].call.thread, trace[n]);
      forall j | k + 1 <= j < |trace| ensures !BeginsAt(trace[k].call.thread, trace[j]) {
        if j < n { assert trace[..n][j] == trace[j]; }
      }
    }
  }

  // ----- theorems -----

  function Plain(i: Input): Move { Move(i, None) }

  /** `c` accepted a prompt at `k` and the session goes on without an end to it. */
  ghost predicate Unended(x: Session, c: Conversation, k: nat) {
    !x.closed && k < |x.trace| && Accepts(c, x.trace[k]) && Never(x.trace, k + 1, |x.trace|, (e: Effect) => Ends(c, e))
  }

  /** Still queued with the text and model that were accepted, or active. */
  ghost predicate Kept(s: State, c: Conversation, text: string, choice: Choice) {
    || (exists i :: i in s.pending && s.pending[i] == Thread(c, text, choice))
    || (c in s.ids && s.ids[c] in s.active && s.active[s.ids[c]].conversation == c)
  }

  /** Only a prompt and the reply to a thread request can begin a turn. */
  lemma OthersBeginNothing(s: State, i: Input, k: nat)
    requires !i.Prompt? && !(i.Incoming? && i.message.Reply?) && k < |Step(s, i).effects|
    ensures !StartsTurn(Step(s, i).effects[k]) && !BeginsOn(Step(s, i).effects[k], s.active)
  {
    hide Resolve, ValidLoginUrl, WithCancelled;
  }

  lemma {:induction false} DisplacedByTurnStart(c: Conversation, v: View, es: seq<Effect>)
    requires forall k | 0 <= k < |es| :: !StartsTurn(es[k])
    ensures Watch(c, v, es).displaced ==> v.displaced
  {
    if es != [] {
      DisplacedByTurnStart(c, v, es[..|es| - 1]);
      assert !StartsTurn(es[|es| - 1]);
    }
  }

  lemma PromptDisplacesNone(s: State, c: Conversation, text: string, wanted: Option<Choice>, d: Conversation, v: View)
    requires Agrees(s, d, v) && !v.displaced && !Overlaps(s, Prompt(c, text, wanted))
    ensures !Watch(d, v, OnPrompt(s, c, text, wanted).effects).displaced
  {
    hide Resolve;
    var es := OnPrompt(s, c, text, wanted).effects;
    WatchFew(d, v, es);
    if |es| == 2 {
      assert BeginsOn(Step(s, Prompt(c, text, wanted)).effects[1], s.active) <==> StartsTurn(es[1]) && es[1].call.thread in s.active;
    }
  }

  lemma ReplyDisplacesNone(s: State, id: nat, body: Option<Body>, d: Conversation, v: View)
    requires Agrees(s, d, v) && !v.displaced && !Overlaps(s, Incoming(Reply(id, body), None))
    ensures !Watch(d, v, OnReply(s, id, body).effects).displaced
  {
    var es := OnReply(s, id, body).effects;
    if |es| == 1 && StartsTurn(es[0]) {
      hide OnReply;
      WatchFew(d, v, es);
      assert BeginsOn(Step(s, Incoming(Reply(id, body), None)).effects[0], s.active) <==> es[0].call.thread in s.active;
    } else {
      assert forall k | 0 <= k < |es| :: !StartsTurn(es[k]);
      hide OnReply;
      DisplacedByTurnStart(d, v, es);
    }
  }

  lemma StepDisplacesNone(s: State, i: Input, c: Conversation, v: View)
    requires Agrees(s, c, v) && !v.displaced && !Overlaps(s, i)
    ensures !Watch(c, v, Step(s, i).effects).displaced
  {
    if i.Prompt? {
      PromptDisplacesNone(s, i.conversation, i.text, i.wanted, c, v);
    } else if i.Incoming? && i.message.Reply? {
      assert Step(s, i) == Step(s, Incoming(i.message, None));
      ReplyDisplacesNone(s, i.message.id, i.message.body, c, v);
    } else {
      forall k | 0 <= k < |Step(s, i).effects| ensures !StartsTurn(Step(s, i).effects[k]) { OthersBeginNothing(s, i, k); }
      DisplacedByTurnStart(c, v, Step(s, i).effects);
    }
  }

  /** While no turn is begun on a thread that has an active one, no turn is displaced. */
  lemma {:induction false} NeverDisplaced(options: seq<ModelOption>, authenticated: bool, moves: seq<Move>, c: Conversation)
    requires NoOverlap(Opening(options, authenticated), moves) && !Run(Opening(options, authenticated), moves).closed
    ensures !Watch(c, START, Run(Opening(options, authenticated), moves).trace).displaced
  {
    hide Step, Agrees, See, Inv, Overlaps;
    var x0 := Opening(options, authenticated);
    if moves == [] {
      OpeningSeen(options, authenticated, c);
    } else {
      var n := |moves| - 1;
      var before := moves[..n];
      assert forall i | 0 <= i < n :: before[i] == moves[i] && before[..i] == moves[..i];
      NeverDisplaced(options, authenticated, before, c);
      EveryRunIsSeen(options, authenticated, before, c);
      var x := Run(x0, before);
      assert !Overlapping(x, moves[n]);
      StepDisplacesNone(x.state, moves[n].input, c, Watch(c, START, x.trace));
      WatchAppends(c, START, x.trace, Step(x.state, moves[n].input).effects);
    }
  }

  /** No accepted prompt is lost: until its Done, its Failed or a logout, it is either
      still queued with the text and model that were accepted, or its turn is active. */
  lemma {:induction false} NoAcceptedPromptIsLost(
    options: seq<ModelOption>, authenticated: bool, moves: seq<Move>, c: Conversation, k: nat)
    ensures
      var x := Run(Opening(options, authenticated), moves);
      NoOverlap(Opening(options, authenticated), moves) && Unended(x, c, k)
      ==> Kept(x.state, c, x.trace[k].text, x.trace[k].choice)
  {
    var x := Run(Opening(options, authenticated), moves);
    if NoOverlap(Opening(options, authenticated), moves) && Unended(x, c, k) {
      EveryRunIsSeen(options, authenticated, moves, c);
      NeverDisplaced(options, authenticated, moves, c);
      OpenUntilEnd(c, x.trace, k);
    }
  }

  // ----- when prompts are kept -----

  ghost predicate AllKept(x: Session) {
    forall c, k: nat | Unended(x, c, k) :: Kept(x.state, c, x.trace[k].text, x.trace[k].choice)
  }

  lemma {:induction false} FirstOverlap(x: Session, moves: seq<Move>) returns (n: nat)
    requires !NoOverlap(x, moves)
    ensures n < |moves| && NoOverlap(x, moves[..n]) && Overlapping(Run(x, moves[..n]), moves[n])
  {
    hide Run, Overlapping;
    var before := moves[..|moves| - 1];
    assert forall i | 0 <= i < |before| :: before[i] == moves[i] && before[..i] == moves[..i];
    if NoOverlap(x, before) {
      n := |moves| - 1;
    } else {
      n := FirstOverlap(x, before);
    }
  }

  /** `o` begins a turn on a thread that is active for another conversation, and otherwise
      takes nothing from that one. */
  ghost predicate Displaces(s: State, o: Outcome, e: Effect) {
    && BeginsOn(e, s.active)
    && var c, thread := e.call.conversation, e.call.thread;
    var d := s.active[thread].conversation;
    && o.ok && c != d
    && o.state.active == s.active[thread := Fresh(c)]
    && d in o.state.ids && o.state.ids[d] == thread
    && (forall n | n in o.state.pending && o.state.pending[n].conversation == d :: !o.state.pending[n].Thread?)
    && (forall n | 0 <= n < |o.effects| :: !Ends(d, o.effects[n]))
  }

  lemma PromptDisplaces(s: State, c: Conversation, text: string, wanted: Option<Choice>, k: nat)
    requires Inv(s)
    requires k < |OnPrompt(s, c, text, wanted).effects| && BeginsOn(OnPrompt(s, c, text, wanted).effects[k], s.active)
    ensures Displaces(s, OnPrompt(s, c, text, wanted), OnPrompt(s, c, text, wanted).effects[k])
  {
    hide Exclusive, Guarded, Resolve;
    assert HasActive(s, s.active[s.ids[c]].conversation);
  }

  lemma ReplyDisplaces(s: State, id: nat, body: Option<Body>, k: nat)
    requires Inv(s)
    requires k < |OnReply(s, id, body).effects| && BeginsOn(OnReply(s, id, body).effects[k], s.active)
    ensures id in s.pending && s.pending[id].Thread? && Displaces(s, OnReply(s, id, body), OnReply(s, id, body).effects[k])
  {
    hide Exclusive, Guarded;
    var o := OnReply(s, id, body);
    assert body.Some? && s.pending[id].Thread?;
    var d := s.active[body.value.thread.value].conversation;
    assert HasActive(s, d) && s.pending[id].conversation != d;
  }

  lemma OverlapDisplaces(s: State, i: Input, k: nat)
    requires Inv(s) && k < |Step(s, i).effects| && BeginsOn(Step(s, i).effects[k], s.active)
    ensures i.Prompt? || (i.Incoming? && i.message.Reply? && i.message.id in s.pending && s.pending[i.message.id].Thread?)
    ensures Displaces(s, Step(s, i), Step(s, i).effects[k])
  {
    hide Displaces, Inv, BeginsOn, OnPrompt, OnReply;
    if i.Prompt? {
      PromptDisplaces(s, i.conversation, i.text, i.wanted, k);
    } else if i.Incoming? && i.message.Reply? {
      ReplyDisplaces(s, i.message.id, i.message.body, k);
    } else {
      OthersBeginNothing(s, i, k);
    }
  }

  lemma {:induction false} OverlapLoses(
    options: seq<ModelOption>, authenticated: bool, moves: seq<Move>, m: Move)
    requires NoOverlap(Opening(options, authenticated), moves)
    requires Overlapping(Run(Opening(options, authenticated), moves), m)
    ensures !AllKept(Advance(Run(Opening(options, authenticated), moves), m))
  {
    hide Run, NoOverlap, Step;
    var x := Run(Opening(options, authenticated), moves);
    var o, y := Step(x.state, m.input), Advance(x, m);
    var n :| 0 <= n < |o.effects| && BeginsOn(o.effects[n], x.state.active);
    var d := x.state.active[o.effects[n].call.thread].conversation;
    EveryRunIsSeen(options, authenticated, moves, d);
    OverlapDisplaces(x.state, m.input, n);
    assert HasActive(x.state, d);
    var k := OpenHasOrigin(d, x.trace);
    hide Inv, Agrees;
    assert Unended(y, d, k);
    assert !Kept(y.state, d, y.trace[k].text, y.trace[k].choice);
  }

  lemma {:induction false} AllAreKept(options: seq<ModelOption>, authenticated: bool, moves: seq<Move>, n: nat)
    requires NoOverlap(Opening(options, authenticated), moves) && n <= |moves|
    ensures AllKept(Run(Opening(options, authenticated), moves[..n]))
  {
    hide Run, Overlapping, Unended, Kept;
    assert forall i | 0 <= i < n :: moves[..n][i] == moves[i] && moves[..n][..i] == moves[..i];
    forall c, k: nat { NoAcceptedPromptIsLost(options, authenticated, moves[..n], c, k); }
  }

  /** The exact condition for keeping every accepted prompt: no step begins a turn on a
      thread that has an active one. */
  lemma {:induction false} PromptsAreKeptExactly(options: seq<ModelOption>, authenticated: bool, moves: seq<Move>)
    ensures
      var x0 := Opening(options, authenticated);
      NoOverlap(x0, moves) <==> forall n | 0 <= n <= |moves| :: AllKept(Run(x0, moves[..n]))
  {
    hide AllKept, Overlapping, NoOverlap, Advance;
    var x0 := Opening(options, authenticated);
    if NoOverlap(x0, moves) {
      forall n | 0 <= n <= |moves| ensures AllKept(Run(x0, moves[..n])) {
        AllAreKept(options, authenticated, moves, n);
      }
    } else {
      var n := FirstOverlap(x0, moves);
      assert moves[..n + 1][..n] == moves[..n];
      assert Run(x0, moves[..n + 1]) == Advance(Run(x0, moves[..n]), moves[n]);
      OverlapLoses(options, authenticated, moves[..n], moves[n]);
    }
  }

  ghost predicate OneThread(ids: map<Conversation, string>) {
    forall c, d | c in ids && d in ids && ids[c] == ids[d] :: c == d
  }

  lemma FreshThreadKeeps(s: State, i: Input)
    requires OneThread(s.ids) && FreshThread(s, i)
    ensures OneThread(Step(s, i).state.ids)
  {
    if i.Incoming? && i.message.Reply? {
      hide WithoutActive, Binds, ValidThreadId;
      var ids := Step(s, i).state.ids;
      assert forall c | c in s.ids :: s.ids[c] in s.ids.Values;
    } else {
      OthersAddNoThread(s, i);
    }
  }

  lemma OthersAddNoThread(s: State, i: Input)
    requires !(i.Incoming? && i.message.Reply?)
    ensures forall c | c in Step(s, i).state.ids :: c in s.ids && Step(s, i).state.ids[c] == s.ids[c]
  {
    hide Resolve, ValidLoginUrl, WithCancelled, Admits;
  }

  lemma PromptBeginsAlone(s: State, c: Conversation, text: string, wanted: Option<Choice>, k: nat)
    requires Inv(s) && OneThread(s.ids) && k < |OnPrompt(s, c, text, wanted).effects|
    ensures !BeginsOn(OnPrompt(s, c, text, wanted).effects[k], s.active)
  {
    hide Exclusive, Guarded, Resolve;
    if c in s.ids && s.ids[c] in s.active {
      assert s.active[s.ids[c]].conversation == c;
      assert HasActive(s, c);
    }
  }

  lemma ReplyBeginsAlone(s: State, id: nat, body: Option<Body>, account: Option<bool>, k: nat)
    requires Inv(s) && FreshThread(s, Incoming(Reply(id, body), account)) && k < |OnReply(s, id, body).effects|
    ensures !BeginsOn(OnReply(s, id, body).effects[k], s.active)
  {
    assert forall t | t in s.active :: t in s.ids.Values;
    hide Inv, ValidThreadId, Binds;
  }

  lemma FreshThreadBegins(s: State, i: Input)
    requires Inv(s) && OneThread(s.ids) && FreshThread(s, i)
    ensures !Overlaps(s, i)
  {
    hide Inv, OneThread, FreshThread, BeginsOn, OnPrompt, OnReply;
    forall k | 0 <= k < |Step(s, i).effects| ensures !BeginsOn(Step(s, i).effects[k], s.active) {
      if i.Prompt? {
        PromptBeginsAlone(s, i.conversation, i.text, i.wanted, k);
      } else if i.Incoming? && i.message.Reply? {
        ReplyBeginsAlone(s, i.message.id, i.message.body, i.account, k);
      } else {
        OthersBeginNothing(s, i, k);
      }
    }
  }

  lemma FreshThreadAdvances(x: Session, m: Move)
    requires Inv(x.state) && OneThread(x.state.ids) && FreshThread(x.state, m.input)
    ensures !Overlapping(x, m) && OneThread(Advance(x, m).state.ids)
  {
    hide Inv, OneThread, FreshThread, Step, Overlaps;
    FreshThreadKeeps(x.state, m.input);
    FreshThreadBegins(x.state, m.input);
  }

  /** A server that never gives a new thread the id of one still held meets the condition. */
  lemma {:induction false} FreshThreadsNeverOverlap(options: seq<ModelOption>, authenticated: bool, moves: seq<Move>)
    requires FreshThreads(Opening(options, authenticated), moves)
    ensures NoOverlap(Opening(options, authenticated), moves)
    ensures OneThread(Run(Opening(options, authenticated), moves).state.ids)
  {
    hide Advance, FreshThread, Overlapping, Inv, InFlight;
    var x0 := Opening(options, authenticated);
    if moves != [] {
      var n := |moves| - 1;
      var before := moves[..n];
      assert forall i | 0 <= i < n :: before[i] == moves[i] && before[..i] == moves[..i];
      FreshThreadsNeverOverlap(options, authenticated, before);
      RunKeeps(options, authenticated, before);
      FreshThreadAdvances(Run(x0, before), moves[n]);
    }
  }

  // ----- how often a prompt ends -----

  /** A prompt of `c` ends at `k` though none was accepted since an end at `j`. */
  ghost predicate EndsTwice(trace: seq<Effect>, c: Conversation, j: nat, k: nat) {
    && j < k < |trace| && Ends(c, trace[j]) && Concludes(c, trace[k])
    && Never(trace, j + 1, k, (e: Effect) => Accepts(c, e))
  }

  /** The Done at `j` came before the answer to the turn/start, and `k` is that answer: an error. */
  ghost predicate LateRefusal(trace: seq<Effect>, c: Conversation, j: nat, k: nat) {
    j < k < |trace| && DrainingSince(trace, c, j, k) && trace[k] == Emit(Failed(c, Provider))
  }

  lemma EndsTwiceIff(c: Conversation, trace: seq<Effect>, j: nat, k: nat)
    requires Seen(c, trace)
    ensures EndsTwice(trace, c, j, k) <==> LateRefusal(trace, c, j, k)
  {
    if j < k < |trace| {
      hide AwaitsAnswer, Watch;
      SeenPrefix(c, trace, k);
      var before := trace[..k];
      assert before[..j] == trace[..j];
      assert forall i | 0 <= i < k :: before[i] == trace[i];
      if EndsTwice(trace, c, j, k) { AfterEnd(c, before, j); }
      if LateRefusal(trace, c, j, k) { DrainingAcceptsNothing(c, before, j); }
    }
  }

  /** A prompt ends once, except in one case, and in that case twice: it is Done while its
      turn/start is unanswered, and the answer then is an error. */
  lemma {:induction false} EndsAtMostOnce(
    options: seq<ModelOption>, authenticated: bool, moves: seq<Move>, c: Conversation, j: nat, k: nat)
    ensures
      var trace := Run(Opening(options, authenticated), moves).trace;
      EndsTwice(trace, c, j, k) <==> LateRefusal(trace, c, j, k)
  {
    hide Run, Agrees;
    var trace := Run(Opening(options, authenticated), moves).trace;
    if j < k < |trace| {
      EveryRunIsSeen(options, authenticated, moves, c);
      EndsTwiceIff(c, trace, j, k);
    }
  }

  /** That case can arise from every open run with such a Done: some request is still
      pending, and an error for it is the second end. */
  lemma {:induction false} LateRefusalIsPossible(
    options: seq<ModelOption>, authenticated: bool, moves: seq<Move>, c: Conversation, j: nat)
    ensures
      var x := Run(Opening(options, authenticated), moves);
      !x.closed && j < |x.trace| && DrainingSince(x.trace, c, j, |x.trace|)
      ==> exists id ::
            var y := Advance(x, Plain(Incoming(Reply(id, None), None)));
            !y.closed && |y.trace| == |x.trace| + 1 && EndsTwice(y.trace, c, j, |x.trace|)
  {
    var x := Run(Opening(options, authenticated), moves);
    if !x.closed && j < |x.trace| && DrainingSince(x.trace, c, j, |x.trace|) {
      EveryRunIsSeen(options, authenticated, moves, c);
      DrainingAcceptsNothing(c, x.trace, j);
      var id :| id in x.state.pending && x.state.pending[id] == Turn(c);
      var y := Advance(x, Plain(Incoming(Reply(id, None), None)));
      assert y.trace == x.trace + [Emit(Failed(c, Provider))];
      assert forall i | 0 <= i < |x.trace| :: y.trace[i] == x.trace[i];
      assert EndsTwice(y.trace, c, j, |x.trace|);
    }
  }

  /** The prompt accepted at `a` is the one begun at `k`: nothing else happened to it. */
  ghost predicate BegunFrom(trace: seq<Effect>, c: Conversation, a: nat, k: nat)
    requires k < |trace| && Begins(c, trace[k])
  {
    && a < k && trace[a] == Accepted(c, trace[k].call.text, trace[k].call.choice)
    && Never(trace, a + 1, k, (e: Effect) => Ends(c, e) || Begins(c, e) || Accepts(c, e))
  }

  /** Every `turn/start` carries exactly the text, model and effort of the prompt accepted
      last for that conversation, which had not ended or been begun before, whatever
      SetModel did in between. */
  lemma {:induction false} TurnStartCarriesTheAcceptedPrompt(
    options: seq<ModelOption>, authenticated: bool, moves: seq<Move>, c: Conversation, k: nat)
    ensures
      var trace := Run(Opening(options, authenticated), moves).trace;
      k < |trace| && Begins(c, trace[k]) ==> exists a :: BegunFrom(trace, c, a, k)
  {
    var trace := Run(Opening(options, authenticated), moves).trace;
    if k < |trace| && Begins(c, trace[k]) {
      EveryRunIsSeen(options, authenticated, moves, c);
      SeenPrefix(c, trace, k);
      var a := WaitingHasOrigin(c, trace[..k]);
      forall j | a + 1 <= j < k ensures !(Ends(c, trace[j]) || Begins(c, trace[j]) || Accepts(c, trace[j])) {
        assert trace[..k][j] == trace[j];
      }
      assert BegunFrom(trace, c, a, k);
    }
  }

  /** The turn begun at `a` and bound at `b` has neither ended nor been begun anew before `k`,
      and no other turn has been begun on its thread. */
  ghost predicate BoundAt(trace: seq<Effect>, c: Conversation, turn: string, a: nat, b: nat, k: nat)
    requires k <= |trace|
  {
    && a < b < k && Begins(c, trace[a]) && trace[b] == Bound(c, turn)
    && Never(trace, a + 1, k, (e: Effect) => BeginsAt(trace[a].call.thread, e))
    && Never(trace, b + 1, k, (e: Effect) => Ends(c, e) || Begins(c, e))
  }

  lemma LastOnItsThread(c: Conversation, trace: seq<Effect>, turn: string, k: nat)
    requires k <= |trace| && Watch(c, START, trace[..k]).life.Running? && Watch(c, START, trace[..k]).life.turn == Some(turn)
    ensures exists a, b :: BoundAt(trace, c, turn, a, b, k)
  {
    var before := trace[..k];
    var a := RunningHasStart(c, before);
    var b := BoundHasOrigin(c, before);
    hide Watch;
    assert forall j | 0 <= j < k :: before[j] == trace[j];
    assert forall j | b + 1 <= j < k :: !Begins(c, before[j]);
    assert BoundAt(trace, c, turn, a, b, k);
  }

  /** Text is forwarded only for the turn bound to the conversation's running request, the
      last begun on its thread, and at most MAX_ANSWER bytes of it per turn. */
  lemma {:induction false} TextBelongsToTheBoundTurn(
    options: seq<ModelOption>, authenticated: bool, moves: seq<Move>, c: Conversation, turn: string, text: string, k: nat)
    ensures
      var trace := Run(Opening(options, authenticated), moves).trace;
      k < |trace| && trace[k] == Emit(Text(c, turn, text))
      ==> (exists a, b :: BoundAt(trace, c, turn, a, b, k)) && Forwarded(c, trace[..k + 1]) <= MAX_ANSWER
  {
    hide Run, Agrees, Forwarded;
    var trace := Run(Opening(options, authenticated), moves).trace;
    if k < |trace| && trace[k] == Emit(Text(c, turn, text)) {
      EveryRunIsSeen(options, authenticated, moves, c);
      SeenPrefix(c, trace, k);
      BytesAreForwarded(c, trace[..k + 1]);
      LastOnItsThread(c, trace, turn, k);
    }
  }

  /** The byte counter of an active turn is what was forwarded of it. */
  lemma {:induction false} CounterIsForwarded(
    options: seq<ModelOption>, authenticated: bool, moves: seq<Move>, thread: string)
    ensures
      var x := Run(Opening(options, authenticated), moves);
      !x.closed && thread in x.state.active
      ==> x.state.active[thread].bytes == Forwarded(x.state.active[thread].conversation, x.trace)
  {
    var x := Run(Opening(options, authenticated), moves);
    if !x.closed && thread in x.state.active {
      var c := x.state.active[thread].conversation;
      EveryRunIsSeen(options, authenticated, moves, c);
      assert HasActive(x.state, c) && x.state.ids[c] == thread;
      BytesAreForwarded(c, x.trace);
    }
  }

  /** Text of `c` after it was muted. */
  ghost predicate TextAfterCancel(trace: seq<Effect>, c: Conversation, j: nat, k: nat) {
    && j < k < |trace| && trace[j] == Muted(c)
    && trace[k].Emit? && trace[k].event.Text? && trace[k].event.conversation == c
  }

  /** After Cancel no text of that conversation is forwarded until its next accepted prompt
      or a Reset that took effect. */
  lemma {:induction false} CancelSilences(
    options: seq<ModelOption>, authenticated: bool, moves: seq<Move>, c: Conversation, j: nat, k: nat)
    ensures
      var trace := Run(Opening(options, authenticated), moves).trace;
      TextAfterCancel(trace, c, j, k)
      ==> exists a :: j < a < k && (Accepts(c, trace[a]) || trace[a] == Unmuted(c))
  {
    hide Run, Agrees;
    var trace := Run(Opening(options, authenticated), moves).trace;
    if TextAfterCancel(trace, c, j, k) {
      EveryRunIsSeen(options, authenticated, moves, c);
      SeenPrefix(c, trace, k);
      if forall a | j < a < k :: !(Accepts(c, trace[a]) || trace[a] == Unmuted(c)) {
        MutedUntilCleared(c, trace[..k], j);
      }
    }
  }

  // ----- why the server's thread ids matter -----

  /** Two conversations that are given the same thread id: the second turn takes the place
      of the first, whose prompt is then in no table though it never ended. */
  function Repeating(m: Choice): seq<Move> {
    [Plain(Prompt(1, "a", Some(m))),
     Plain(Prompt(2, "b", Some(m))),
     Plain(Incoming(Reply(5, Some(Body(true, Some("t"), None))), None)),
     Plain(Incoming(Reply(7, Some(Body(true, None, Some("u")))), None)),
     Plain(Incoming(Reply(6, Some(Body(true, Some("t"), None))), None))]
  }

  const M := Choice("m", "medium")
  const OPTIONS := [ModelOption("m", ["medium"])]

  function At(nextId: nat, ids: map<Conversation, string>, pending: map<nat, Pending>, active: map<string, Active>): State {
    State(OPTIONS, true, M, nextId, ids, pending, active, {}, None)
  }

  const AFTER_PROMPTS := At(6, map[], map[5 := Thread(1, "a", M), 6 := Thread(2, "b", M)], map[])
  const AFTER_TURN := At(7, map[1 := "t"], map[6 := Thread(2, "b", M)], map["t" := Active(1, false, Some("u"), 0)])
  const AFTER_REPEAT := At(8, map[1 := "t", 2 := "t"], map[8 := Turn(2)], map["t" := Fresh(2)])

  lemma Moved(x: Session, i: Input, o: Outcome)
    requires !x.closed && Step(x.state, i) == o
    ensures Advance(x, Plain(i)) == Session(o.state, x.trace + o.effects, !o.ok)
  {
  }

  lemma FirstPrompts(x: Session)
    requires x.state == At(4, map[], map[], map[]) && !x.closed
    ensures
      Advance(Advance(x, Repeating(M)[0]), Repeating(M)[1]) ==
      Session(AFTER_PROMPTS, x.trace + [Accepted(1, "a", M), Send(5, ThreadStart("m"))]
                             + [Accepted(2, "b", M), Send(6, ThreadStart("m"))], false)
  {
    assert Resolve(OPTIONS, M) == M;
    var s1 := At(5, map[], map[5 := Thread(1, "a", M)], map[]);
    Moved(x, Repeating(M)[0].input, Outcome(s1, [Accepted(1, "a", M), Send(5, ThreadStart("m"))], true));
    var x1 := Advance(x, Repeating(M)[0]);
    Moved(x1, Repeating(M)[1].input, Outcome(AFTER_PROMPTS, [Accepted(2, "b", M), Send(6, ThreadStart("m"))], true));
  }

  lemma FirstTurn(x: Session)
    requires x.state == AFTER_PROMPTS && !x.closed
    ensures
      Advance(Advance(x, Repeating(M)[2]), Repeating(M)[3]) ==
      Session(AFTER_TURN, x.trace + [Send(7, TurnStart(1, "t", "a", M))] + [Replied(1), Bound(1, "u")], false)
  {
    var s3 := At(7, map[1 := "t"], map[6 := Thread(2, "b", M), 7 := Turn(1)], map["t" := Fresh(1)]);
    assert AFTER_PROMPTS.pending - {5} == map[6 := Thread(2, "b", M)];
    assert s3.pending - {7} == map[6 := Thread(2, "b", M)];
    Moved(x, Repeating(M)[2].input, Outcome(s3, [Send(7, TurnStart(1, "t", "a", M))], true));
    var x3 := Advance(x, Repeating(M)[2]);
    Moved(x3, Repeating(M)[3].input, Outcome(AFTER_TURN, [Replied(1), Bound(1, "u")], true));
  }

  lemma SecondTurn(x: Session)
    requires x.state == AFTER_TURN && !x.closed
    ensures Advance(x, Repeating(M)[4]) == Session(AFTER_REPEAT, x.trace + [Send(8, TurnStart(2, "t", "b", M))], false)
  {
    assert AFTER_TURN.pending - {6} == map[];
    Moved(x, Repeating(M)[4].input, Outcome(AFTER_REPEAT, [Send(8, TurnStart(2, "t", "b", M))], true));
  }

  lemma RunOfFive(x: Session, moves: seq<Move>)
    requires |moves| == 5
    ensures Run(x, moves) == Advance(Advance(Advance(Advance(Advance(x, moves[0]), moves[1]), moves[2]), moves[3]), moves[4])
  {
    var before := moves[..4];
    assert before[..3] == moves[..3] && moves[..3][..2] == moves[..2] && moves[..2][..1] == moves[..1] && moves[..1][..0] == [];
    assert Run(x, moves[..1]) == Advance(x, moves[0]);
    assert Run(x, moves[..2]) == Advance(Run(x, moves[..1]), moves[1]);
    assert Run(x, moves[..3]) == Advance(Run(x, moves[..2]), moves[2]);
    assert Run(x, moves[..4]) == Advance(Run(x, moves[..3]), moves[3]);
  }

  lemma RepeatingRun(x: Session)
    requires x.state == At(4, map[], map[], map[]) && !x.closed
    ensures
      Run(x, Repeating(M)) ==
      Session(AFTER_REPEAT, x.trace + [Accepted(1, "a", M), Send(5, ThreadStart("m"))]
                            + [Accepted(2, "b", M), Send(6, ThreadStart("m"))]
                            + [Send(7, TurnStart(1, "t", "a", M))] + [Replied(1), Bound(1, "u")]
                            + [Send(8, TurnStart(2, "t", "b", M))], false)
  {
    var moves := Repeating(M);
    RunOfFive(x, moves);
    FirstPrompts(x);
    var x2 := Advance(Advance(x, moves[0]), moves[1]);
    FirstTurn(x2);
    SecondTurn(Advance(Advance(x2, moves[2]), moves[3]));
  }

  lemma RepeatedThreadLosesAPrompt()
    ensures
      var x := Run(Opening(OPTIONS, true), Repeating(M));
      && !x.closed
      && (exists k :: 0 <= k < |x.trace| && x.trace[k] == Accepted(1, "a", M))
      && (forall k | 0 <= k < |x.trace| :: !Ends(1, x.trace[k]))
      && !HasPending(x.state, 1) && !HasActive(x.state, 1)
  {
    var x0 := Opening(OPTIONS, true);
    assert Resolve(OPTIONS, Choice(DEFAULT_MODEL, DEFAULT_EFFORT)) == M;
    RepeatingRun(x0);
    assert Run(x0, Repeating(M)).trace[2] == Accepted(1, "a", M);
  }

  /** The theorems speak of runs that exist: the first four inputs of that run keep thread ids
      fresh, and a prompt is accepted, begun and bound in them. */
  lemma FreshRunExists()
    ensures
      var moves := Repeating(M)[..4];
      var x := Run(Opening(OPTIONS, true), moves);
      && FreshThreads(Opening(OPTIONS, true), moves) && !x.closed
      && Accepted(1, "a", M) in x.trace && Send(7, TurnStart(1, "t", "a", M)) in x.trace && Bound(1, "u") in x.trace
      && x.state == AFTER_TURN
  {
    var x0, moves := Opening(OPTIONS, true), Repeating(M)[..4];
    assert Resolve(OPTIONS, Choice(DEFAULT_MODEL, DEFAULT_EFFORT)) == M;
    FirstPrompts(x0);
    assert moves[..1][..0] == [] && moves[..2][..1] == moves[..1] && moves[..3][..2] == moves[..2] && moves[..3] == moves[..4][..3];
    assert Run(x0, moves[..1]) == Advance(x0, moves[0]);
    assert Run(x0, moves[..2]) == Advance(Run(x0, moves[..1]), moves[1]);
    var x2 := Run(x0, moves[..2]);
    FirstTurn(x2);
    assert Run(x0, moves[..3]) == Advance(x2, moves[2]);
    assert Run(x0, moves) == Advance(Run(x0, moves[..3]), moves[3]);
  }

  /** Done, then Failed: the turn completes before the answer to its turn/start arrives, and
      that answer is an error. */
  const ENDING_TWICE := [
    Plain(Prompt(1, "a", Some(M))),
    Plain(Incoming(Reply(5, Some(Body(true, Some("t"), None))), None)),
    Plain(Incoming(TurnStarted(Some("t"), Some("u")), None)),
    Plain(Incoming(TurnCompleted(Some("t"), Some("u")), None)),
    Plain(Incoming(Reply(6, None), None))]

  const BEGUN := At(6, map[1 := "t"], map[6 := Turn(1)], map["t" := Fresh(1)])

  lemma BeginsFirst(x: Session)
    requires x.state == At(4, map[], map[], map[]) && !x.closed
    ensures
      Advance(Advance(x, ENDING_TWICE[0]), ENDING_TWICE[1]) ==
      Session(BEGUN, x.trace + [Accepted(1, "a", M), Send(5, ThreadStart("m"))] + [Send(6, TurnStart(1, "t", "a", M))], false)
  {
    assert Resolve(OPTIONS, M) == M;
    var s1 := At(5, map[], map[5 := Thread(1, "a", M)], map[]);
    Moved(x, ENDING_TWICE[0].input, Outcome(s1, [Accepted(1, "a", M), Send(5, ThreadStart("m"))], true));
    assert s1.pending - {5} == map[];
    Moved(Advance(x, ENDING_TWICE[0]), ENDING_TWICE[1].input, Outcome(BEGUN, [Send(6, TurnStart(1, "t", "a", M))], true));
  }

  lemma EndsLater(x: Session)
    requires x.state == BEGUN && !x.closed
    ensures Advance(Advance(Advance(x, ENDING_TWICE[2]), ENDING_TWICE[3]), ENDING_TWICE[4]).trace
         == x.trace + [Bound(1, "u")] + [Emit(Done(1))] + [Emit(Failed(1, Provider))]
  {
    var s3 := BEGUN.(active := map["t" := Active(1, false, Some("u"), 0)]);
    Moved(x, ENDING_TWICE[2].input, Outcome(s3, [Bound(1, "u")], true));
    var x3 := Advance(x, ENDING_TWICE[2]);
    var s4 := BEGUN.(active := map[]);
    assert s3.active - {"t"} == map[] && s4.pending - {6} == map[];
    Moved(x3, ENDING_TWICE[3].input, Outcome(s4, [Emit(Done(1))], true));
    var x4 := Advance(x3, ENDING_TWICE[3]);
    Moved(x4, ENDING_TWICE[4].input, Outcome(s4.(pending := map[]), [Emit(Failed(1, Provider))], true));
  }

  lemma PromptEndsTwice()
    ensures
      Run(Opening(OPTIONS, true), ENDING_TWICE).trace ==
      Opening(OPTIONS, true).trace + [Accepted(1, "a", M), Send(5, ThreadStart("m"))]
        + [Send(6, TurnStart(1, "t", "a", M))] + [Bound(1, "u")] + [Emit(Done(1))] + [Emit(Failed(1, Provider))]
  {
    hide Advance;
    var x0 := Opening(OPTIONS, true);
    assert Resolve(OPTIONS, Choice(DEFAULT_MODEL, DEFAULT_EFFORT)) == M;
    RunOfFive(x0, ENDING_TWICE);
    BeginsFirst(x0);
    EndsLater(Advance(Advance(x0, ENDING_TWICE[0]), ENDING_TWICE[1]));
  }
}
