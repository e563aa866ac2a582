/** What the outside may observe about one conversation, and the proof that every run of
    the bridge is such an observation.

    `See` is written without the bridge's tables. It reads the trace of a run and follows
    one conversation: a prompt is accepted, its turn is started with exactly what was
    accepted, text arrives for the bound turn, and the prompt ends with one Done or one
    Failed. Anything else is `Broken`. Nothing is assumed of the server: if it gives another
    conversation the thread of a running turn, that turn is over when the other one begins. */
module BridgeLife {
  import opened Common
  import opened BridgeModel
  import opened BridgeSafety

  /** `Draining`: the turn is over before the server answered the request that began it. */
  datatype Life =
    | Idle
    | Waiting(text: string, choice: Choice)
    | Running(text: string, choice: Choice, thread: string, replied: bool, turn: Option<string>, bytes: nat)
    | Draining
    | Broken

  /** `displaced`: some turn of the conversation was over because another took its thread. */
  datatype View = View(life: Life, muted: bool, displaced: bool)

  const START := View(Idle, false, false)
  const BROKEN := View(Broken, false, false)

  /** The running turn is over, answered or not. */
  function Over(life: Life): Life
    requires life.Running?
  {
    if life.replied then Idle else Draining
  }

  function See(c: Conversation, v: View, e: Effect): View {
    match e
    case Accepted(d, text, choice) =>
      if d != c then v
      else if v.life.Idle? then v.(life := Waiting(text, choice), muted := false)
      else BROKEN
    case Send(_, TurnStart(d, thread, text, choice)) =>
      if d != c then
        if v.life.Running? && v.life.thread == thread then v.(life := Over(v.life), displaced := true) else v
      else if v.life == Waiting(text, choice) && !v.muted then v.(life := Running(text, choice, thread, false, None, 0))
      else BROKEN
    case Send(_, Interrupt(d, _, turn)) =>
      if d != c then v
      else if v.life.Running? && v.life.turn == Some(turn) && v.muted then v
      else BROKEN
    case Replied(d) =>
      if d != c then v
      else if v.life.Running? && !v.life.replied then v.(life := v.life.(replied := true))
      else if v.life.Draining? then v.(life := Idle)
      else BROKEN
    case Bound(d, turn) =>
      if d != c then v
      else if v.life.Running? && (v.life.turn.None? || v.life.turn == Some(turn))
      then v.(life := v.life.(turn := Some(turn)))
      else BROKEN
    case Muted(d) => if d != c then v else v.(muted := true)
    case Unmuted(d) =>
      if d != c then v
      else if v.life.Running? || v.life.Broken? then BROKEN
      else v.(muted := false)
    case Emit(Text(d, turn, text)) =>
      if d != c then v
      else if v.life.Running? && v.life.turn == Some(turn) && !v.muted && v.life.bytes + |text| <= MAX_ANSWER
      then v.(life := v.life.(bytes := v.life.bytes + |text|))
      else BROKEN
    case Emit(Blocked(d)) =>
      if d != c || v.life.Running? then v else BROKEN
    case Emit(Done(d)) =>
      if d != c then v
      else if v.life.Waiting? && v.muted then v.(life := Idle)
      else if v.life.Running? then v.(life := Over(v.life))
      else BROKEN
    case Emit(Failed(d, Provider)) =>
      if d != c then v
      else if v.life.Waiting? || v.life.Draining? || (v.life.Running? && !v.life.replied) then v.(life := Idle)
      else BROKEN
    case Emit(LoggedOut) => if v.life.Broken? then v else v.(life := Idle)
    case _ => v
  }

  function Watch(c: Conversation, v: View, trace: seq<Effect>): View {
    if trace == [] then v else See(c, Watch(c, v, trace[..|trace| - 1]), trace[|trace| - 1])
  }

  lemma {:induction false} WatchAppends(c: Conversation, v: View, a: seq<Effect>, b: seq<Effect>)
    ensures Watch(c, v, a + b) == Watch(c, Watch(c, v, a), b)
  {
    if b == [] {
      assert a + b == a;
    } else {
      WatchAppends(c, v, a, b[..|b| - 1]);
      assert (a + b)[..|a + b| - 1] == a + b[..|b| - 1];
    }
  }

  lemma WatchFew(c: Conversation, v: View, es: seq<Effect>)
    ensures |es| == 0 ==> Watch(c, v, es) == v
    ensures |es| == 1 ==> Watch(c, v, es) == See(c, v, es[0])
    ensures |es| == 2 ==> Watch(c, v, es) == See(c, See(c, v, es[0]), es[1])
    ensures |es| == 3 ==> Watch(c, v, es) == See(c, See(c, See(c, v, es[0]), es[1]), es[2])
  {
    if 1 <= |es| <= 3 { assert es[..|es|-1][..] == es[..|es|-1]; }
    if |es| == 1 { assert es[..0] == []; }
    if |es| == 2 { assert es[..1] == [es[0]] && [es[0]][..0] == []; }
    if |es| == 3 { assert es[..2] == [es[0], es[1]] && [es[0], es[1]][..1] == [es[0]] && [es[0]][..0] == []; }
  }

  lemma {:induction false} BrokenStays(c: Conversation, v: View, trace: seq<Effect>)
    requires v.life.Broken?
    ensures Watch(c, v, trace).life.Broken?
  {
    if trace != [] { BrokenStays(c, v, trace[..|trace| - 1]); }
  }

  /** The tables of the bridge say of `c` what was observed of `c`. */
  ghost predicate Agrees(s: State, c: Conversation, v: View) {
    match v.life
    case Idle => !HasPending(s, c) && !HasActive(s, c)
    case Waiting(text, choice) =>
      && (exists i :: i in s.pending && s.pending[i] == Thread(c, text, choice))
      && !HasActive(s, c)
      && (v.muted <==> c in s.cancelled)
    case Running(_, _, thread, replied, turn, bytes) =>
      && c in s.ids && s.ids[c] == thread && thread in s.active
      && s.active[thread] == Active(c, v.muted, turn, bytes)
      && (replied ==> !HasPending(s, c))
      && (!replied ==> exists i :: i in s.pending && s.pending[i] == Turn(c))
    case Draining =>
      && (exists i :: i in s.pending && s.pending[i] == Turn(c))
      && !HasActive(s, c)
    case Broken => false
  }

  /** Nothing that concerns `d` differs between the two states. */
  ghost predicate SameFor(s: State, s': State, d: Conversation) {
    && (forall i | i in s.pending && s.pending[i].conversation == d :: i in s'.pending && s'.pending[i] == s.pending[i])
    && (forall i | i in s'.pending && s'.pending[i].conversation == d :: i in s.pending && s.pending[i].conversation == d)
    && (forall t | t in s.active && s.active[t].conversation == d :: t in s'.active && s'.active[t] == s.active[t])
    && (forall t | t in s'.active && s'.active[t].conversation == d :: t in s.active && s.active[t].conversation == d)
    && (d in s.ids <==> d in s'.ids) && (d in s.ids ==> s'.ids[d] == s.ids[d])
    && (d in s.cancelled <==> d in s'.cancelled)
  }

  lemma Frame(s: State, s': State, d: Conversation, v: View)
    requires SameFor(s, s', d) && Agrees(s, d, v)
    ensures Agrees(s', d, v)
  {
  }

  // ----- each arm -----

  /** Another conversation sees a turn begin only if its own is running on that thread. */
  lemma BeginTurnSeenByOther(s: State, thread: string, c: Conversation, text: string, choice: Choice, d: Conversation, v: View)
    requires Inv(s) && d != c && Agrees(s, d, v)
    ensures
      var o := BeginTurn(s, thread, c, text, choice);
      Agrees(o.state, d, Watch(d, v, o.effects))
  {
    var o := BeginTurn(s, thread, c, text, choice);
    WatchFew(d, v, o.effects);
    if thread in s.active && s.active[thread].conversation == d {
      assert HasActive(s, d) && s.ids[d] == thread && v.life.Running?;
      DisplacedAgrees(s, thread, c, d, v);
    } else {
      assert SameFor(s, o.state, d);
      hide Inv;
      Frame(s, o.state, d, v);
    }
  }

  lemma DisplacedAgrees(s: State, thread: string, c: Conversation, d: Conversation, v: View)
    requires Inv(s) && d != c && Agrees(s, d, v) && v.life.Running? && v.life.thread == thread
    ensures
      var s' := s.(nextId := s.nextId + 1, pending := s.pending[s.nextId + 1 := Turn(c)], active := s.active[thread := Fresh(c)]);
      Agrees(s', d, v.(life := Over(v.life), displaced := true))
  {
    hide Exclusive;
    var s' := s.(nextId := s.nextId + 1, pending := s.pending[s.nextId + 1 := Turn(c)], active := s.active[thread := Fresh(c)]);
    assert !HasActive(s', d);
    if !v.life.replied {
      var i :| i in s.pending && s.pending[i] == Turn(d);
      assert s'.pending[i] == Turn(d);
    }
  }

  lemma BeginTurnAgrees(s: State, thread: string, c: Conversation, text: string, choice: Choice, v: View)
    requires c in s.ids && s.ids[c] == thread
    requires v.life == Waiting(text, choice) && !v.muted
    ensures
      var o := BeginTurn(s, thread, c, text, choice);
      Agrees(o.state, c, Watch(c, v, o.effects))
  {
    var o := BeginTurn(s, thread, c, text, choice);
    WatchFew(c, v, o.effects);
    assert o.state.pending[o.state.nextId] == Turn(c);
  }

  predicate Accepting(s: State, c: Conversation, text: string, wanted: Option<Choice>) {
    var choice := if wanted.Some? then wanted.value else s.choice;
    Admits(s, c, text) && Resolve(s.options, choice) == choice
  }

  lemma PromptSeenByOther(s: State, c: Conversation, text: string, wanted: Option<Choice>, d: Conversation, v: View)
    requires Inv(s) && Agrees(s, d, v) && d != c
    ensures
      var o := OnPrompt(s, c, text, wanted);
      Agrees(o.state, d, Watch(d, v, o.effects))
  {
    if Accepting(s, c, text, wanted) && c in s.ids {
      var choice := if wanted.Some? then wanted.value else s.choice;
      var cleared := s.(cancelled := s.cancelled - {c});
      ClearedFrames(s, c, d);
      WatchFew(d, v, [Accepted(c, text, choice)]);
      hide Agrees, SameFor, Watch, Inv;
      Frame(s, cleared, d, v);
      BeginTurnSeenByOther(cleared, s.ids[c], c, text, choice, d, v);
      WatchAppends(d, v, [Accepted(c, text, choice)], BeginTurn(cleared, s.ids[c], c, text, choice).effects);
    } else {
      UnbegunUnseen(s, c, text, wanted, d, v);
      hide Inv, OnPrompt;
      Frame(s, OnPrompt(s, c, text, wanted).state, d, v);
    }
  }

  lemma ClearedFrames(s: State, c: Conversation, d: Conversation)
    requires Inv(s) && d != c
    ensures
      var cleared := s.(cancelled := s.cancelled - {c});
      SameFor(s, cleared, d) && Inv(cleared)
  {
  }

  lemma UnbegunUnseen(s: State, c: Conversation, text: string, wanted: Option<Choice>, d: Conversation, v: View)
    requires Inv(s) && d != c && !(Accepting(s, c, text, wanted) && c in s.ids)
    ensures
      var o := OnPrompt(s, c, text, wanted);
      SameFor(s, o.state, d) && Watch(d, v, o.effects) == v
  {
    hide Exclusive, Linked, Resolve;
    WatchFew(d, v, OnPrompt(s, c, text, wanted).effects);
  }

  lemma PromptSeen(s: State, c: Conversation, text: string, wanted: Option<Choice>, v: View)
    requires Inv(s) && Agrees(s, c, v)
    ensures
      var o := OnPrompt(s, c, text, wanted);
      Agrees(o.state, c, Watch(c, v, o.effects))
  {
    if Accepting(s, c, text, wanted) {
      assert v.life.Idle?;
      AcceptedSeen(s, c, text, wanted, v);
    } else {
      WatchFew(c, v, OnPrompt(s, c, text, wanted).effects);
      hide Agrees;
    }
  }

  lemma AcceptedSeen(s: State, c: Conversation, text: string, wanted: Option<Choice>, v: View)
    requires Accepting(s, c, text, wanted) && v.life.Idle?
    ensures
      var o := OnPrompt(s, c, text, wanted);
      Agrees(o.state, c, Watch(c, v, o.effects))
  {
    var o := OnPrompt(s, c, text, wanted);
    WatchFew(c, v, o.effects);
    var choice := if wanted.Some? then wanted.value else s.choice;
    var accepted := v.(life := Waiting(text, choice), muted := false);
    if c in s.ids {
      var cleared := s.(cancelled := s.cancelled - {c});
      WatchFew(c, accepted, BeginTurn(cleared, s.ids[c], c, text, choice).effects);
      BeginTurnAgrees(cleared, s.ids[c], c, text, choice, accepted);
    } else {
      assert o.state.pending[o.state.nextId] == Thread(c, text, choice);
    }
  }

  lemma ResetSeen(s: State, c: Conversation, d: Conversation, v: View)
    requires Inv(s) && Agrees(s, d, v)
    ensures
      var o := OnReset(s, c);
      Agrees(o.state, d, Watch(d, v, o.effects))
  {
    var o := OnReset(s, c);
    WatchFew(d, v, o.effects);
    if v.life.Running? { assert HasActive(s, d); }
  }

  lemma CancelSeen(s: State, c: Conversation, d: Conversation, v: View)
    requires Inv(s) && Agrees(s, d, v)
    ensures
      var o := OnCancel(s, c);
      Agrees(o.state, d, Watch(d, v, o.effects))
  {
    hide Exclusive, Guarded;
    var o := OnCancel(s, c);
    WatchFew(d, v, o.effects);
    assert forall t | t in s.active :: o.state.active[t].conversation == s.active[t].conversation;
    if HasActive(s, c) { assert s.ids[c] == ThreadOf(s, c); }
  }

  lemma ThreadReplySeen(s: State, id: nat, body: Body, v: View)
    requires Inv(s) && id in s.pending && s.pending[id].Thread?
    requires Agrees(s, s.pending[id].conversation, v) && OnReply(s, id, Some(body)).ok
    ensures
      var o, c := OnReply(s, id, Some(body)), s.pending[id].conversation;
      Agrees(o.state, c, Watch(c, v, o.effects))
  {
    var Thread(c, text, choice) := s.pending[id];
    var o := OnReply(s, id, Some(body));
    assert v.life == Waiting(text, choice);
    WatchFew(c, v, o.effects);
    if c !in s.cancelled {
      var thread := body.thread.value;
      var known := s.(pending := s.pending - {id}, ids := s.ids[c := thread]);
      BeginTurnAgrees(known, thread, c, text, choice, v);
    }
  }

  lemma RefusedReplySeen(s: State, id: nat, v: View)
    requires Inv(s) && id in s.pending
    requires Agrees(s, s.pending[id].conversation, v)
    ensures
      var o, c := OnReply(s, id, None), s.pending[id].conversation;
      Agrees(o.state, c, Watch(c, v, o.effects))
  {
    var o, c := OnReply(s, id, None), s.pending[id].conversation;
    WatchFew(c, v, o.effects);
    assert forall i | i in s.pending && s.pending[i].conversation == c :: i == id;
  }

  ghost predicate Answers(s: State, id: nat, body: Body, d: Conversation, v: View) {
    var o := OnReply(s, id, Some(body));
    && Watch(d, v, o.effects).life != Broken
    && (o.ok ==> Agrees(o.state, d, Watch(d, v, o.effects)))
  }

  /** The turn that a reply binds is the one active on the conversation's thread, whosever
      it is. */
  lemma TurnReplySeen(s: State, id: nat, body: Body, d: Conversation, v: View)
    requires Inv(s) && id in s.pending && s.pending[id].Turn? && Agrees(s, d, v)
    ensures Answers(s, id, body, d, v)
  {
    var c := s.pending[id].conversation;
    if d == c {
      OwnTurnReplySeen(s, id, body, v);
    } else if c in s.ids && s.ids[c] in s.active && s.active[s.ids[c]].conversation == d {
      SharedTurnReplySeen(s, id, body, v);
    } else {
      TurnReplyUnseen(s, id, body, d, v);
      Frame(s, OnReply(s, id, Some(body)).state, d, v);
    }
  }

  lemma OwnTurnReplySeen(s: State, id: nat, body: Body, v: View)
    requires Inv(s) && id in s.pending && s.pending[id].Turn? && Agrees(s, s.pending[id].conversation, v)
    ensures Answers(s, id, body, s.pending[id].conversation, v)
  {
    var c := s.pending[id].conversation;
    if c in s.ids && s.ids[c] in s.active && s.active[s.ids[c]].conversation == c {
      assert HasActive(s, c);
      LiveTurnReplySeen(s, id, body, v);
    } else {
      assert !v.life.Running?;
      EndedTurnReplySeen(s, id, body, v);
    }
  }

  lemma LiveTurnReplySeen(s: State, id: nat, body: Body, v: View)
    requires Inv(s) && id in s.pending && s.pending[id].Turn? && Agrees(s, s.pending[id].conversation, v)
    requires HasActive(s, s.pending[id].conversation)
    ensures Answers(s, id, body, s.pending[id].conversation, v)
  {
    var o, c := OnReply(s, id, Some(body)), s.pending[id].conversation;
    assert forall i | i in s.pending && s.pending[i].conversation == c :: i == id;
    assert v.life.Running? && s.ids[c] in s.active;
    hide Exclusive, Guarded, Linked;
    WatchFew(c, v, o.effects);
  }

  lemma EndedTurnReplySeen(s: State, id: nat, body: Body, v: View)
    requires Inv(s) && id in s.pending && s.pending[id].Turn? && Agrees(s, s.pending[id].conversation, v)
    requires !v.life.Running?
    ensures Answers(s, id, body, s.pending[id].conversation, v)
  {
    var o, c := OnReply(s, id, Some(body)), s.pending[id].conversation;
    assert forall i | i in s.pending && s.pending[i].conversation == c :: i == id;
    assert v.life.Draining?;
    hide Exclusive, Guarded, Linked;
    WatchFew(c, v, o.effects);
  }

  lemma SharedTurnReplySeen(s: State, id: nat, body: Body, v: View)
    requires Inv(s) && id in s.pending && s.pending[id].Turn?
    requires s.pending[id].conversation in s.ids && s.ids[s.pending[id].conversation] in s.active
    requires s.active[s.ids[s.pending[id].conversation]].conversation != s.pending[id].conversation
    requires Agrees(s, s.active[s.ids[s.pending[id].conversation]].conversation, v)
    ensures Answers(s, id, body, s.active[s.ids[s.pending[id].conversation]].conversation, v)
  {
    var o, thread := OnReply(s, id, Some(body)), s.ids[s.pending[id].conversation];
    var d := s.active[thread].conversation;
    assert HasActive(s, d) && s.ids[d] == thread && v.life.Running?;
    WatchFew(d, v, o.effects);
    hide Exclusive, Guarded, Linked;
    if !v.life.replied {
      var i :| i in s.pending && s.pending[i] == Turn(d);
      assert i != id && o.state.pending[i] == Turn(d);
    }
  }

  lemma TurnReplyUnseen(s: State, id: nat, body: Body, d: Conversation, v: View)
    requires id in s.pending && s.pending[id].Turn? && s.pending[id].conversation != d
    requires
      var c := s.pending[id].conversation;
      c in s.ids && s.ids[c] in s.active ==> s.active[s.ids[c]].conversation != d
    ensures
      var o := OnReply(s, id, Some(body));
      SameFor(s, o.state, d) && Watch(d, v, o.effects) == v
  {
    WatchFew(d, v, OnReply(s, id, Some(body)).effects);
  }

  lemma ReplySeen(s: State, id: nat, body: Option<Body>, d: Conversation, v: View)
    requires Inv(s) && Agrees(s, d, v)
    ensures
      var o := OnReply(s, id, body);
      && Watch(d, v, o.effects).life != Broken
      && (o.ok ==> Agrees(o.state, d, Watch(d, v, o.effects)))
  {
    if id in s.pending {
      if body.None? {
        if d == s.pending[id].conversation {
          RefusedReplySeen(s, id, v);
        } else {
          RefusedReplyUnseen(s, id, d, v);
          Frame(s, OnReply(s, id, body).state, d, v);
        }
      } else if s.pending[id].Turn? {
        TurnReplySeen(s, id, body.value, d, v);
      } else {
        WatchFew(d, v, OnReply(s, id, body).effects);
        if OnReply(s, id, body).ok {
          if d == s.pending[id].conversation {
            ThreadReplySeen(s, id, body.value, v);
          } else {
            ThreadReplySeenByOther(s, id, body.value, d, v);
          }
        }
      }
    }
  }

  /** An error is not seen by any other conversation. */
  lemma RefusedReplyUnseen(s: State, id: nat, d: Conversation, v: View)
    requires id in s.pending && s.pending[id].conversation != d
    ensures
      var o := OnReply(s, id, None);
      SameFor(s, o.state, d) && Watch(d, v, o.effects) == v
  {
    WatchFew(d, v, OnReply(s, id, None).effects);
  }

  lemma ThreadReplySeenByOther(s: State, id: nat, body: Body, d: Conversation, v: View)
    requires Inv(s) && id in s.pending && s.pending[id].Thread? && s.pending[id].conversation != d
    requires Agrees(s, d, v) && OnReply(s, id, Some(body)).ok
    ensures
      var o := OnReply(s, id, Some(body));
      Agrees(o.state, d, Watch(d, v, o.effects))
  {
    var Thread(c, text, choice) := s.pending[id];
    var o, thread := OnReply(s, id, Some(body)), body.thread.value;
    WatchFew(d, v, o.effects);
    var known := s.(pending := s.pending - {id}, ids := s.ids[c := thread]);
    assert SameFor(s, known, d);
    Frame(s, known, d, v);
    ThreadReplyKeeps(s, id, thread);
    hide Inv, Agrees, SameFor, Watch;
    if c !in s.cancelled { BeginTurnSeenByOther(known, thread, c, text, choice, d, v); }
  }

  lemma NotificationSeen(s: State, thread: string, m: Message, v: View)
    requires Inv(s) && thread in s.active && Agrees(s, s.active[thread].conversation, v)
    ensures
      var o, c := OnNotification(s, thread, m), s.active[thread].conversation;
      o.state.ids == s.ids && Agrees(o.state, c, Watch(c, v, o.effects))
  {
    hide Exclusive;
    var o, c := OnNotification(s, thread, m), s.active[thread].conversation;
    WatchFew(c, v, o.effects);
    assert HasActive(s, c) && s.ids[c] == thread && v.life.Running?;
    if m.TurnCompleted? {
      assert forall t | t in s.active && s.active[t].conversation == c :: t == thread;
    } else {
      hide HasActive;
    }
  }

  lemma NotificationUnseen(s: State, thread: string, m: Message, d: Conversation, v: View)
    requires thread in s.active && s.active[thread].conversation != d
    ensures
      var o := OnNotification(s, thread, m);
      o.state.ids == s.ids && SameFor(s, o.state, d) && Watch(d, v, o.effects) == v
  {
    WatchFew(d, v, OnNotification(s, thread, m).effects);
  }

  lemma AnyNotificationSeen(s: State, thread: string, m: Message, d: Conversation, v: View)
    requires Inv(s) && Agrees(s, d, v) && thread in s.active
    ensures
      var o := OnNotification(s, thread, m);
      Agrees(o.state, d, Watch(d, v, o.effects))
  {
    hide OnNotification, Inv, Agrees, See;
    if d == s.active[thread].conversation {
      NotificationSeen(s, thread, m, v);
    } else {
      NotificationUnseen(s, thread, m, d, v);
      Frame(s, OnNotification(s, thread, m).state, d, v);
    }
  }

  lemma AccountSeen(s: State, i: Input, d: Conversation, v: View)
    requires Agrees(s, d, v)
    requires i.Login? || i.CancelLogin? || i.SetModel? || i.Tick? || (i.Incoming? && i.message.LoginCompleted?)
    ensures
      var o := Step(s, i);
      Agrees(o.state, d, Watch(d, v, o.effects))
  {
    AccountUnseen(s, i, d, v);
    hide Step, Agrees;
    Frame(s, Step(s, i).state, d, v);
  }

  /** Effects that concern no conversation. */
  predicate Silent(e: Effect) {
    || (e.Send? && !e.call.TurnStart? && !e.call.Interrupt?)
    || e.Deny?
    || (e.Emit? && (e.event.LoginRequired? || e.event.LoginUrl? || e.event.Ready? || e.event.Models?))
  }

  lemma {:induction false} SilentUnseen(c: Conversation, v: View, es: seq<Effect>)
    requires forall k | 0 <= k < |es| :: Silent(es[k])
    ensures Watch(c, v, es) == v
  {
    if es != [] {
      SilentUnseen(c, v, es[..|es| - 1]);
      assert Silent(es[|es| - 1]);
    }
  }

  /** Signing in and choosing a model touch no conversation. */
  lemma AccountUnseen(s: State, i: Input, d: Conversation, v: View)
    requires i.Login? || i.CancelLogin? || i.SetModel? || i.Tick? || (i.Incoming? && i.message.LoginCompleted?)
    ensures
      var o := Step(s, i);
      o.state.ids == s.ids && SameFor(s, o.state, d) && Watch(d, v, o.effects) == v
  {
    hide Resolve, ValidLoginUrl, Watch, See;
    SilentUnseen(d, v, Step(s, i).effects);
  }

  lemma LogoutSeen(s: State, confirmed: bool, d: Conversation, v: View)
    requires Inv(s) && Agrees(s, d, v)
    ensures
      var o := OnLogout(s, confirmed);
      Agrees(o.state, d, Watch(d, v, o.effects))
  {
    var o := OnLogout(s, confirmed);
    var last := if confirmed then [Emit(LoggedOut)] else [];
    var first := o.effects[..|o.effects| - |last|];
    assert o.effects == first + last;
    WatchAppends(d, v, first, last);
    WatchFew(d, v, first);
    WatchFew(d, Watch(d, v, first), last);
  }

  // ----- every run -----

  lemma StepSeen(s: State, i: Input, d: Conversation, v: View)
    requires Inv(s) && Agrees(s, d, v)
    ensures
      var o := Step(s, i);
      && Watch(d, v, o.effects).life != Broken
      && (o.ok ==> Agrees(o.state, d, Watch(d, v, o.effects)))
  {
    hide Inv, SameFor, OnPrompt, OnReply, OnNotification, OnLogout, OnCancel, OnReset;
    match i
    case Prompt(c, text, wanted) =>
      if c == d {
        PromptSeen(s, c, text, wanted, v);
      } else {
        PromptSeenByOther(s, c, text, wanted, d, v);
      }
    case Reset(c) => ResetSeen(s, c, d, v);
    case Cancel(c) => CancelSeen(s, c, d, v);
    case Logout(confirmed) => LogoutSeen(s, confirmed, d, v);
    case Incoming(m, account) =>
      if m.Reply? {
        ReplySeen(s, m.id, m.body, d, v);
        assert Step(s, i) == Step(s, Incoming(m, None));
      }
      else if m.LoginCompleted? { AccountSeen(s, i, d, v); }
      else {
        WatchFew(d, v, [Deny]);
        if Named(m).Some? && Named(m).value in s.active { AnyNotificationSeen(s, Named(m).value, m, d, v); }
      }
    case HangUp =>
    case _ => AccountSeen(s, i, d, v);
  }

  lemma PrefixUnbroken(c: Conversation, v: View, a: seq<Effect>, k: nat)
    requires k <= |a| && Watch(c, v, a).life != Broken
    ensures Watch(c, v, a[..k]).life != Broken
  {
    assert a == a[..k] + a[k..];
    WatchAppends(c, v, a[..k], a[k..]);
    if Watch(c, v, a[..k]).life.Broken? { BrokenStays(c, Watch(c, v, a[..k]), a[k..]); }
  }

  lemma OpeningSeen(options: seq<ModelOption>, authenticated: bool, c: Conversation)
    ensures Watch(c, START, Opening(options, authenticated).trace) == START
  {
    WatchFew(c, START, Opening(options, authenticated).trace);
  }

  /** The bridge refines the observation: for every conversation, in every run, whatever the
      server sends, and whatever is lost, denied or cut short, the trace never breaks `See`,
      and while the session is open the tables agree with it. */
  lemma {:induction false} EveryRunIsSeen(options: seq<ModelOption>, authenticated: bool, moves: seq<Move>, c: Conversation)
    ensures
      var x := Run(Opening(options, authenticated), moves);
      var v := Watch(c, START, x.trace);
      && v.life != Broken
      && (!x.closed ==> Inv(x.state) && Agrees(x.state, c, v))
  {
    OpeningSeen(options, authenticated, c);
    if moves == [] {
      InitialHolds(options, authenticated);
    } else {
      hide Step, Inv, Agrees, See;
      var before, last := moves[..|moves| - 1], moves[|moves| - 1];
      EveryRunIsSeen(options, authenticated, before, c);
      var x := Run(Opening(options, authenticated), before);
      if !x.closed {
        var o := Step(x.state, last.input);
        var v := Watch(c, START, x.trace);
        StepSeen(x.state, last.input, c, v);
        StepKeeps(x.state, last.input);
        WatchAppends(c, START, x.trace, o.effects);
        if last.cut.Some? && last.cut.value < |o.effects| {
          PrefixUnbroken(c, v, o.effects, last.cut.value);
          WatchAppends(c, START, x.trace, o.effects[..last.cut.value]);
        }
      }
    }
  }
}
