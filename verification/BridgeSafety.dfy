/** What every reachable state of the bridge satisfies, whatever the server answers. */
module BridgeSafety {
  import opened Common
  import opened BridgeModel

  ghost predicate OneRequest(pending: map<nat, Pending>) {
    forall i, j | i in pending && j in pending && pending[i].conversation == pending[j].conversation :: i == j
  }

  ghost predicate OneTurn(active: map<string, Active>) {
    forall t, u | t in active && u in active && active[t].conversation == active[u].conversation :: t == u
  }

  /** At most one request and at most one turn per conversation. */
  ghost predicate Exclusive(s: State) {
    OneRequest(s.pending) && OneTurn(s.active)
  }

  /** A conversation is active on the thread recorded for it, and on none while its
      thread is being created. */
  ghost predicate Linked(s: State) {
    && (forall t | t in s.active :: s.active[t].conversation in s.ids && s.ids[s.active[t].conversation] == t)
    && (forall i | i in s.pending && s.pending[i].Thread? ::
          s.pending[i].conversation !in s.ids && !HasActive(s, s.pending[i].conversation))
  }

  /** Requests belong to this connection; without an account nothing is in flight. */
  ghost predicate Guarded(s: State) {
    && (forall i | i in s.pending :: i <= s.nextId)
    && (s.login.Some? ==> !s.authenticated)
    && (!s.authenticated ==> s.pending == map[] && s.active == map[])
    && (forall t | t in s.active :: s.active[t].bytes <= MAX_ANSWER)
    && s.choice == Resolve(s.options, s.choice)
  }

  ghost predicate Inv(s: State) {
    Exclusive(s) && Linked(s) && Guarded(s)
  }

  // ----- the model in use is always one that the account can use -----

  lemma {:induction false} FindsItsOwn(options: seq<ModelOption>, id: string)
    ensures Find(options, id).Some? ==> Find(options, Find(options, id).value.id) == Find(options, id)
  {}

  lemma FindsTheFirst(options: seq<ModelOption>)
    requires options != []
    ensures Find(options, options[0].id) == Some(options[0])
  {}

  /** Resolving is idempotent, so what it selected is never refused later. */
  lemma {:induction false} ResolveIdempotent(options: seq<ModelOption>, wanted: Choice)
    ensures Resolve(options, Resolve(options, wanted)) == Resolve(options, wanted)
  {
    if options != [] {
      FindsItsOwn(options, wanted.model);
      FindsTheFirst(options);
    }
  }

  // ----- counting -----

  ghost function Owners(s: State): map<nat, Conversation> {
    map i | i in s.pending :: s.pending[i].conversation
  }

  ghost function Holders(s: State): map<string, Conversation> {
    map t | t in s.active :: s.active[t].conversation
  }

  ghost function InFlight(s: State): set<Conversation> {
    Owners(s).Values + Holders(s).Values
  }

  lemma InFlightMembers(s: State, c: Conversation)
    ensures c in InFlight(s) <==> HasPending(s, c) || HasActive(s, c)
  {
    if i :| i in s.pending && s.pending[i].conversation == c { assert Owners(s)[i] == c; }
    if t :| t in s.active && s.active[t].conversation == c { assert Holders(s)[t] == c; }
  }

  lemma {:induction false} InFlightBounds(s: State)
    ensures |InFlight(s)| <= |s.pending| + |s.active|
    ensures Exclusive(s) ==> |s.pending| <= |InFlight(s)| && |s.active| <= |InFlight(s)|
  {
    var owners, holders := Owners(s), Holders(s);
    assert owners.Keys == s.pending.Keys && holders.Keys == s.active.Keys;
    assert |owners| == |s.pending| && |holders| == |s.active|;
    ValuesSize(owners);
    ValuesSize(holders);
    SubsetSize(owners.Values, InFlight(s));
    SubsetSize(holders.Values, InFlight(s));
  }

  ghost predicate Covers(s: State, s': State, extra: set<Conversation>) {
    forall c | c !in extra :: (HasPending(s', c) ==> HasPending(s, c) || HasActive(s, c))
                           && (HasActive(s', c) ==> HasPending(s, c) || HasActive(s, c))
  }

  lemma InFlightGrowth(s: State, s': State, extra: set<Conversation>)
    requires Covers(s, s', extra)
    ensures |InFlight(s')| <= |InFlight(s)| + |extra|
  {
    forall c | c in InFlight(s') ensures c in InFlight(s) + extra {
      InFlightMembers(s', c);
      InFlightMembers(s, c);
    }
    SubsetSize(InFlight(s'), InFlight(s) + extra);
  }

  // ----- every step keeps the invariant -----

  lemma BeginTurnKeeps(s: State, thread: string, c: Conversation, text: string, choice: Choice)
    requires Inv(s) && s.authenticated
    requires !HasPending(s, c) && !HasActive(s, c)
    requires c in s.ids && s.ids[c] == thread
    ensures Inv(BeginTurn(s, thread, c, text, choice).state)
  {
  }

  lemma PromptKeeps(s: State, c: Conversation, text: string, wanted: Option<Choice>)
    requires Inv(s)
    ensures Inv(OnPrompt(s, c, text, wanted).state)
  {
    var choice := if wanted.Some? then wanted.value else s.choice;
    if Admits(s, c, text) && Resolve(s.options, choice) == choice && c in s.ids {
      BeginTurnKeeps(s.(cancelled := s.cancelled - {c}), s.ids[c], c, text, choice);
    }
  }

  lemma ResetKeeps(s: State, c: Conversation)
    requires Inv(s)
    ensures Inv(OnReset(s, c).state)
  {
  }

  lemma CancelKeeps(s: State, c: Conversation)
    requires Inv(s)
    ensures Inv(OnCancel(s, c).state)
  {
    var s' := OnCancel(s, c).state;
    assert forall t | t in s.active :: s'.active[t].conversation == s.active[t].conversation;
  }

  lemma ThreadReplyKeeps(s: State, id: nat, thread: string)
    requires Inv(s) && id in s.pending && s.pending[id].Thread?
    ensures Inv(s.(pending := s.pending - {id}, ids := s.ids[s.pending[id].conversation := thread]))
  {
  }

  lemma RefusedReplyKeeps(s: State, id: nat)
    requires Inv(s)
    ensures Inv(OnReply(s, id, None).state)
  {
  }

  lemma TurnReplyKeeps(s: State, id: nat, body: Body)
    requires Inv(s) && id in s.pending && s.pending[id].Turn?
    ensures Inv(OnReply(s, id, Some(body)).state)
  {
  }

  lemma ReplyKeeps(s: State, id: nat, body: Option<Body>)
    requires Inv(s)
    ensures Inv(OnReply(s, id, body).state)
  {
    if body.None? {
      hide OnReply;
      RefusedReplyKeeps(s, id);
    } else if id in s.pending && s.pending[id].Turn? {
      hide OnReply;
      TurnReplyKeeps(s, id, body.value);
    } else if id in s.pending && body.value.thread.Some? {
      var c, thread := s.pending[id].conversation, body.value.thread.value;
      ThreadReplyKeeps(s, id, thread);
      var known := s.(pending := s.pending - {id}, ids := s.ids[c := thread]);
      BeginTurnKeeps(known, thread, c, s.pending[id].text, s.pending[id].choice);
      hide BeginTurn;
    }
  }

  lemma NotificationKeeps(s: State, thread: string, m: Message)
    requires Inv(s) && thread in s.active
    ensures Inv(OnNotification(s, thread, m).state)
  {
  }

  lemma AccountKeeps(s: State, i: Input)
    requires Inv(s)
    requires i.Login? || i.CancelLogin? || i.Logout? || i.SetModel? || i.Tick? || (i.Incoming? && i.message.LoginCompleted?)
    ensures Inv(Step(s, i).state)
  {
    if i.SetModel? { ResolveIdempotent(s.options, i.model); }
    if i.Incoming? { ResolveIdempotent(s.options, s.choice); }
  }

  lemma StepKeeps(s: State, i: Input)
    requires Inv(s)
    ensures Inv(Step(s, i).state)
  {
    match i
    case Prompt(c, text, wanted) => PromptKeeps(s, c, text, wanted);
    case Reset(c) => ResetKeeps(s, c);
    case Cancel(c) => CancelKeeps(s, c);
    case Incoming(m, account) =>
      if m.Reply? { ReplyKeeps(s, m.id, m.body); }
      else if m.LoginCompleted? { AccountKeeps(s, i); }
      else if Named(m).Some? && Named(m).value in s.active { NotificationKeeps(s, Named(m).value, m); }
    case HangUp =>
    case _ => AccountKeeps(s, i);
  }

  lemma PromptCovers(s: State, c: Conversation, text: string, wanted: Option<Choice>)
    ensures Covers(s, OnPrompt(s, c, text, wanted).state, {c})
  {
  }

  lemma ReplyCovers(s: State, id: nat, body: Option<Body>)
    ensures Covers(s, OnReply(s, id, body).state, {})
  {
    if id in s.pending { assert HasPending(s, s.pending[id].conversation); }
  }

  lemma CancelCovers(s: State, c: Conversation)
    ensures Covers(s, OnCancel(s, c).state, {})
  {
    var s' := OnCancel(s, c).state;
    assert forall t | t in s.active :: s'.active[t].conversation == s.active[t].conversation;
  }

  lemma NotificationCovers(s: State, thread: string, m: Message)
    requires thread in s.active
    ensures Covers(s, OnNotification(s, thread, m).state, {})
  {
    assert HasActive(s, s.active[thread].conversation);
  }

  lemma StepCovers(s: State, i: Input)
    ensures Covers(s, Step(s, i).state, if i.Prompt? then {i.conversation} else {})
  {
    hide OnPrompt, OnCancel, OnReply, OnNotification, Resolve, ValidLoginUrl;
    match i
    case Prompt(c, text, wanted) => PromptCovers(s, c, text, wanted);
    case Cancel(c) => CancelCovers(s, c);
    case Incoming(m, account) =>
      if m.Reply? { ReplyCovers(s, m.id, m.body); }
      else if Named(m).Some? && Named(m).value in s.active { NotificationCovers(s, Named(m).value, m); }
    case _ =>
  }

  /** Only a prompt can put a new conversation in flight. */
  lemma OtherBounds(s: State, i: Input)
    requires !i.Prompt? && |InFlight(s)| <= IN_FLIGHT
    ensures |InFlight(Step(s, i).state)| <= IN_FLIGHT
  {
    StepCovers(s, i);
    hide Step, Inv, InFlight, Covers;
    InFlightGrowth(s, Step(s, i).state, {});
  }

  lemma PromptBounds(s: State, c: Conversation, text: string, wanted: Option<Choice>)
    requires |InFlight(s)| <= IN_FLIGHT
    ensures |InFlight(OnPrompt(s, c, text, wanted).state)| <= IN_FLIGHT
  {
    var s' := OnPrompt(s, c, text, wanted).state;
    if Admits(s, c, text) {
      assert |s.pending| + |s.active| < IN_FLIGHT;
      InFlightBounds(s);
      PromptCovers(s, c, text, wanted);
      hide OnPrompt, InFlight, Covers;
      InFlightGrowth(s, s', {c});
    } else {
      hide InFlight;
    }
  }

  /** Admission counts table entries, yet the number of conversations stays bounded. */
  lemma StepBounds(s: State, i: Input)
    requires |InFlight(s)| <= IN_FLIGHT
    ensures |InFlight(Step(s, i).state)| <= IN_FLIGHT
  {
    hide InFlight, OnPrompt;
    if i.Prompt? {
      PromptBounds(s, i.conversation, i.text, i.wanted);
    } else {
      OtherBounds(s, i);
    }
  }

  lemma {:induction false} InitialHolds(options: seq<ModelOption>, authenticated: bool)
    ensures Inv(Initial(options, authenticated))
  {
    ResolveIdempotent(options, Choice(DEFAULT_MODEL, DEFAULT_EFFORT));
  }

  lemma {:induction false} RunKeeps(options: seq<ModelOption>, authenticated: bool, moves: seq<Move>)
    ensures
      var s := Run(Opening(options, authenticated), moves).state;
      Inv(s) && |InFlight(s)| <= IN_FLIGHT
  {
    hide Step, Inv, InFlight;
    if moves == [] {
      InitialHolds(options, authenticated);
      InFlightBounds(Initial(options, authenticated));
    } else {
      var before := moves[..|moves| - 1];
      RunKeeps(options, authenticated, before);
      var s := Run(Opening(options, authenticated), before).state;
      StepKeeps(s, moves[|moves| - 1].input);
      StepBounds(s, moves[|moves| - 1].input);
    }
  }

  // ----- consequences -----

  /** In every run, whatever the server sends: request ids are unique and already issued,
      at most eight conversations are in flight with one request and one turn each, so the
      two tables together never exceed sixteen entries. */
  lemma {:induction false} InFlightBound(options: seq<ModelOption>, authenticated: bool, moves: seq<Move>)
    ensures
      var s := Run(Opening(options, authenticated), moves).state;
      && (forall i | i in s.pending :: i <= s.nextId)
      && Exclusive(s)
      && |InFlight(s)| <= IN_FLIGHT
      && |s.pending| + |s.active| <= 2 * IN_FLIGHT
  {
    RunKeeps(options, authenticated, moves);
    InFlightBounds(Run(Opening(options, authenticated), moves).state);
  }

  /** The inputs whose step waits for one reply and discards every other message. */
  predicate Synchronous(s: State, i: Input) {
    match i
    case Login(_) => !s.authenticated && s.login.None?
    case CancelLogin(_) => s.login.Some?
    case Logout(_) => true
    case Tick(loginExpired, _, _) => loginExpired && s.login.Some?
    case Incoming(m, _) => m.LoginCompleted? && s.login.Some? && m.loginId == s.login
    case _ => false
  }

  /** A message that would have changed a request or a turn in flight. */
  predicate AboutTurn(s: State, m: Message) {
    (m.Reply? && m.id in s.pending) || (Named(m).Some? && Named(m).value in s.active)
  }

  predicate Waits(e: Effect) {
    e.Send? && (e.call.LoginStart? || e.call.LoginCancel? || e.call.AccountLogout? || e.call.AccountRead?)
  }

  /** Steps that make a synchronous call are exactly the ones listed. */
  lemma SynchronousExactly(s: State, i: Input)
    ensures Synchronous(s, i) <==> exists k :: 0 <= k < |Step(s, i).effects| && Waits(Step(s, i).effects[k])
  {
    var es := Step(s, i).effects;
    if Synchronous(s, i) {
      if i.Logout? && s.login.Some? { assert Waits(es[1]); } else { assert Waits(es[0]); }
    }
  }

  /** The discard loop of a synchronous call never swallows what a live turn waits for,
      except in Logout; a Logout that completes leaves nothing in flight. */
  lemma {:induction false} SynchronousCallsSwallowNoTurn(
    options: seq<ModelOption>, authenticated: bool, moves: seq<Move>, i: Input, m: Message)
    ensures
      var s := Run(Opening(options, authenticated), moves).state;
      Synchronous(s, i) && !i.Logout? ==> !AboutTurn(s, m)
    ensures
      var o := Step(Run(Opening(options, authenticated), moves).state, i);
      i.Logout? && o.ok ==> o.state.pending == map[] && o.state.active == map[] && !o.state.authenticated
  {
    RunKeeps(options, authenticated, moves);
  }

  /** A prompt that names no model is never refused for its model. */
  lemma {:induction false} SelectedModelIsNeverRefused(
    options: seq<ModelOption>, authenticated: bool, moves: seq<Move>, c: Conversation, text: string)
    ensures
      var s := Run(Opening(options, authenticated), moves).state;
      Emit(Failed(c, ModelUnavailable)) !in OnPrompt(s, c, text, None).effects
  {
    RunKeeps(options, authenticated, moves);
    hide Run;
  }
}
