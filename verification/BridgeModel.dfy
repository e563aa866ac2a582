/** The conversation bridge: its state, what one step of `serve` does, and runs.

    Strings are sequences of bytes. Time, the server and the two channels are not
    deterministic, so a step takes as input what arrived: a user command, a server
    message already decoded, or a clock tick. A step yields the new state, the effects
    in the order they happen, and whether `serve` goes on (`false` is its `Err`). */
module BridgeModel {
  import opened Common

  const MAX_PROMPT := 32 * 1024
  const MAX_ANSWER := 128 * 1024
  const IN_FLIGHT := 8
  const MAX_ID := 128
  const DEFAULT_MODEL := "gpt-6.1-sol"
  const DEFAULT_EFFORT := "medium"
  /** The requests a fresh process answers before `serve` sees it. */
  const BOOTSTRAP_REQUESTS := 4

  type Conversation = nat
  datatype Choice = Choice(model: string, effort: string)
  datatype ModelOption = ModelOption(id: string, efforts: seq<string>)

  datatype Pending =
    | Thread(conversation: Conversation, text: string, choice: Choice)
    | Turn(conversation: Conversation)
  datatype Active = Active(conversation: Conversation, cancelled: bool, turn: Option<string>, bytes: nat)

  datatype State = State(
    options: seq<ModelOption>,
    authenticated: bool,
    choice: Choice,
    nextId: nat,
    ids: map<Conversation, string>,
    pending: map<nat, Pending>,
    active: map<string, Active>,
    cancelled: set<Conversation>,
    login: Option<string>)

  datatype LoginReply = LoginReply(chatgpt: bool, url: Option<string>, id: Option<string>)
  datatype Body = Body(ephemeral: bool, thread: Option<string>, turn: Option<string>)

  /** A frame read from the server. `None` stands for a missing or ill-typed field. */
  datatype Message =
    | Request
    | Reply(id: nat, body: Option<Body>)
    | LoginCompleted(loginId: Option<string>, success: bool)
    | TurnStarted(thread: Option<string>, turn: Option<string>)
    | ItemStarted(thread: Option<string>, forbidden: bool)
    | Delta(thread: Option<string>, turn: Option<string>, text: Option<string>)
    | TurnCompleted(thread: Option<string>, turn: Option<string>)
    | Unknown

  /** What `select!` delivers. Fields after the command itself are outcomes of the
      synchronous requests that the arm performs: `None` or `false` when they fail. */
  datatype Input =
    | Login(reply: Option<LoginReply>)
    | CancelLogin(confirmed: bool)
    | Logout(confirmed: bool)
    | Prompt(conversation: Conversation, text: string, wanted: Option<Choice>)
    | SetModel(model: Choice)
    | Reset(conversation: Conversation)
    | Cancel(conversation: Conversation)
    | Incoming(message: Message, account: Option<bool>)
    | Tick(loginExpired: bool, confirmed: bool, overdue: bool)
    | HangUp

  /** Calls the bridge writes. `conversation` is provenance, not a field on the wire. */
  datatype Call =
    | LoginStart
    | LoginCancel(loginId: string)
    | AccountLogout
    | AccountRead
    | ThreadStart(model: string)
    | TurnStart(conversation: Conversation, thread: string, text: string, choice: Choice)
    | Interrupt(conversation: Conversation, thread: string, turn: string)
    | Unsubscribe(thread: string)

  /** The three messages that a `Failed` event can carry. */
  datatype Cause = NotReady | ModelUnavailable | Provider

  datatype Event =
    | LoginRequired
    | LoggedOut
    | LoginUrl(url: string)
    | Ready
    | Models(selected: Choice)
    | Text(conversation: Conversation, turn: string, text: string)
    | Blocked(conversation: Conversation)
    | Done(conversation: Conversation)
    | Failed(conversation: Conversation, cause: Cause)

  /** `Send`, `Deny` and `Emit` are visible; the others only mark a point of the run. */
  datatype Effect =
    | Send(id: nat, call: Call)
    | Deny
    | Emit(event: Event)
    | Accepted(conversation: Conversation, text: string, choice: Choice)
    | Replied(conversation: Conversation)
    | Bound(conversation: Conversation, turn: string)
    | Muted(conversation: Conversation)
    | Unmuted(conversation: Conversation)

  datatype Outcome = Outcome(state: State, effects: seq<Effect>, ok: bool)

  predicate IsControl(c: char) {
    c < ' ' || c == '\U{007F}'
  }

  predicate ValidTurnId(id: string) {
    0 < |id| <= MAX_ID
  }

  predicate ValidThreadId(id: string) {
    0 < |id| <= MAX_ID && forall k | 0 <= k < |id| :: !IsControl(id[k])
  }

  predicate ValidLoginUrl(url: string) {
    && |url| <= 8192
    && "https://auth.openai.com/oauth/authorize?" <= url
    && forall k | 0 <= k < |url| :: !IsControl(url[k])
  }

  /** The first option with that id. */
  function Find(options: seq<ModelOption>, id: string): (r: Option<ModelOption>)
    ensures r.Some? ==> r.value in options && r.value.id == id
  {
    if options == [] then None
    else if options[0].id == id then Some(options[0])
    else Find(options[1..], id)
  }

  /** Keeps the wanted model and effort when the account can use them. */
  function Resolve(options: seq<ModelOption>, wanted: Choice): Choice {
    if options == [] then Choice(DEFAULT_MODEL, DEFAULT_EFFORT)
    else
      var m := match Find(options, wanted.model) case Some(m) => m case None => options[0];
      Choice(m.id, if wanted.effort in m.efforts then wanted.effort else DEFAULT_EFFORT)
  }

  predicate HasActive(s: State, c: Conversation) {
    exists t :: t in s.active && s.active[t].conversation == c
  }

  predicate HasPending(s: State, c: Conversation) {
    exists i :: i in s.pending && s.pending[i].conversation == c
  }

  /** The thread on which conversation `c` is active; unique in every reachable state. */
  ghost function ThreadOf(s: State, c: Conversation): (t: string)
    requires HasActive(s, c)
    ensures t in s.active && s.active[t].conversation == c
  {
    var t :| t in s.active && s.active[t].conversation == c;
    t
  }

  function Fresh(c: Conversation): Active {
    Active(c, false, None, 0)
  }

  function WithoutActive(s: State, c: Conversation): map<string, Active> {
    map t | t in s.active && s.active[t].conversation != c :: s.active[t]
  }

  function WithCancelled(s: State, c: Conversation): map<string, Active> {
    map t | t in s.active :: if s.active[t].conversation == c then s.active[t].(cancelled := true) else s.active[t]
  }

  /** `begin_turn`: the request is recorded under its id and the thread becomes active. */
  function BeginTurn(s: State, thread: string, c: Conversation, text: string, choice: Choice): Outcome {
    var id := s.nextId + 1;
    Outcome(s.(nextId := id, pending := s.pending[id := Turn(c)], active := s.active[thread := Fresh(c)]),
            [Send(id, TurnStart(c, thread, text, choice))], true)
  }

  function OnLogin(s: State, reply: Option<LoginReply>): Outcome {
    if s.authenticated || s.login.Some? then Outcome(s, [], true)
    else
      var sent := s.(nextId := s.nextId + 1);
      var effects := [Send(sent.nextId, LoginStart)];
      if && reply.Some? && reply.value.chatgpt
         && reply.value.url.Some? && ValidLoginUrl(reply.value.url.value)
         && reply.value.id.Some? && ValidTurnId(reply.value.id.value)
      then Outcome(sent.(login := reply.value.id), effects + [Emit(LoginUrl(reply.value.url.value))], true)
      else Outcome(sent, effects, false)
  }

  function OnCancelLogin(s: State, confirmed: bool): Outcome {
    if s.login.None? then Outcome(s, [], true)
    else
      var sent := s.(nextId := s.nextId + 1, login := None);
      var effects := [Send(sent.nextId, LoginCancel(s.login.value))];
      Outcome(sent, if confirmed then effects + [Emit(LoginRequired)] else effects, confirmed)
  }

  function OnLogout(s: State, confirmed: bool): Outcome {
    var n := if s.login.Some? then s.nextId + 1 else s.nextId;
    var cancel := if s.login.Some? then [Send(n, LoginCancel(s.login.value))] else [];
    var effects := cancel + [Send(n + 1, AccountLogout), Send(n + 2, AccountRead)];
    if !confirmed then Outcome(s.(nextId := n + 2, login := None), effects, false)
    else
      Outcome(s.(authenticated := false, nextId := BOOTSTRAP_REQUESTS, ids := map[], pending := map[],
                 active := map[], cancelled := {}, login := None),
              effects + [Emit(LoggedOut)], true)
  }

  predicate Admits(s: State, c: Conversation, text: string) {
    && s.authenticated
    && |text| <= MAX_PROMPT
    && |s.pending| + |s.active| < IN_FLIGHT
    && !HasActive(s, c)
    && !HasPending(s, c)
  }

  function OnPrompt(s: State, c: Conversation, text: string, wanted: Option<Choice>): Outcome {
    var choice := if wanted.Some? then wanted.value else s.choice;
    if !Admits(s, c, text) then Outcome(s, [Emit(Failed(c, NotReady))], true)
    else if Resolve(s.options, choice) != choice then Outcome(s, [Emit(Failed(c, ModelUnavailable))], true)
    else
      var cleared := s.(cancelled := s.cancelled - {c});
      if c in s.ids then
        var begun := BeginTurn(cleared, s.ids[c], c, text, choice);
        Outcome(begun.state, [Accepted(c, text, choice)] + begun.effects, true)
      else
        var id := s.nextId + 1;
        Outcome(cleared.(nextId := id, pending := s.pending[id := Thread(c, text, choice)]),
                [Accepted(c, text, choice), Send(id, ThreadStart(choice.model))], true)
  }

  function OnSetModel(s: State, wanted: Choice): Outcome {
    var s' := s.(choice := Resolve(s.options, wanted));
    Outcome(s', if s.authenticated then [Emit(Models(s'.choice))] else [], true)
  }

  function OnReset(s: State, c: Conversation): Outcome {
    if HasActive(s, c) then Outcome(s, [], true)
    else
      var cleared := s.(cancelled := s.cancelled - {c});
      if c in s.ids then
        Outcome(cleared.(nextId := s.nextId + 1, ids := s.ids - {c}),
                [Send(s.nextId + 1, Unsubscribe(s.ids[c])), Unmuted(c)], true)
      else Outcome(cleared, [Unmuted(c)], true)
  }

  ghost function OnCancel(s: State, c: Conversation): Outcome {
    var marked := s.(cancelled := s.cancelled + {c}, active := WithCancelled(s, c));
    if HasActive(s, c) && s.active[ThreadOf(s, c)].turn.Some? then
      var t := ThreadOf(s, c);
      Outcome(marked.(nextId := s.nextId + 1),
              [Muted(c), Send(s.nextId + 1, Interrupt(c, t, s.active[t].turn.value))], true)
    else Outcome(marked, [Muted(c)], true)
  }

  /** `Active::bind_turn`: a second, different id is an error. */
  predicate Binds(a: Active, turn: Option<string>) {
    turn.Some? && ValidTurnId(turn.value) && (a.turn.Some? ==> a.turn == turn)
  }

  function OnReply(s: State, id: nat, body: Option<Body>): Outcome {
    if id !in s.pending then Outcome(s, [], true)
    else
      var request := s.pending[id];
      var c := request.conversation;
      var taken := s.(pending := s.pending - {id});
      if body.None? then Outcome(taken.(active := WithoutActive(s, c)), [Emit(Failed(c, Provider))], true)
      else
        match request
        case Thread(_, text, choice) =>
          if !body.value.ephemeral || body.value.thread.None? || !ValidThreadId(body.value.thread.value)
          then Outcome(taken, [], false)
          else
            var thread := body.value.thread.value;
            var known := taken.(ids := s.ids[c := thread]);
            if c in s.cancelled then Outcome(known, [Emit(Done(c))], true)
            else BeginTurn(known, thread, c, text, choice)
        case Turn(_) =>
          if !(c in s.ids && s.ids[c] in s.active) then Outcome(taken, [Replied(c)], true)
          else
            var thread := s.ids[c];
            var a := s.active[thread];
            if !Binds(a, body.value.turn) then Outcome(taken, [Replied(c)], false)
            else
              var turn := body.value.turn.value;
              var bound := taken.(active := s.active[thread := a.(turn := Some(turn))]);
              if a.cancelled then
                Outcome(bound.(nextId := s.nextId + 1),
                        [Replied(c), Bound(a.conversation, turn),
                         Send(s.nextId + 1, Interrupt(a.conversation, thread, turn))], true)
              else Outcome(bound, [Replied(c), Bound(a.conversation, turn)], true)
  }

  function OnLoginCompleted(s: State, loginId: Option<string>, success: bool, account: Option<bool>): Outcome {
    if s.login.None? || loginId != s.login then Outcome(s, [], true)
    else
      var sent := s.(login := None, nextId := s.nextId + 1);
      var read := [Send(sent.nextId, AccountRead)];
      if account.None? then Outcome(sent, read, false)
      else
        var s' := sent.(authenticated := success && account.value, choice := Resolve(s.options, s.choice));
        Outcome(s', read + (if s'.authenticated then [Emit(Ready), Emit(Models(s'.choice))] else [Emit(LoginRequired)]),
                true)
  }

  function OnNotification(s: State, thread: string, m: Message): Outcome
    requires thread in s.active
  {
    var a := s.active[thread];
    var c := a.conversation;
    match m
    case TurnStarted(_, turn) =>
      if a.turn.Some? then Outcome(s, [], true)
      else if !Binds(a, turn) then Outcome(s, [], false)
      else Outcome(s.(active := s.active[thread := a.(turn := turn)]), [Bound(c, turn.value)], true)
    case ItemStarted(_, forbidden) =>
      if forbidden then Outcome(s, [Emit(Blocked(c))], false) else Outcome(s, [], true)
    case Delta(_, turn, text) =>
      if a.cancelled || a.turn.None? || a.turn != turn then Outcome(s, [], true)
      else if text.None? || a.bytes + |text.value| > MAX_ANSWER then Outcome(s, [], false)
      else
        Outcome(s.(active := s.active[thread := a.(bytes := a.bytes + |text.value|)]),
                [Emit(Text(c, a.turn.value, text.value))], true)
    case TurnCompleted(_, turn) =>
      if a.turn.None? || a.turn != turn then Outcome(s, [], true)
      else Outcome(s.(active := s.active - {thread}), [Emit(Done(c))], true)
    case _ => Outcome(s, [], true)
  }

  /** The thread a notification names, when it names one. */
  function Named(m: Message): Option<string> {
    match m
    case TurnStarted(thread, _) => thread
    case ItemStarted(thread, _) => thread
    case Delta(thread, _, _) => thread
    case TurnCompleted(thread, _) => thread
    case _ => None
  }

  function OnMessage(s: State, m: Message, account: Option<bool>): Outcome {
    match m
    case Request => Outcome(s, [Deny], true)
    case Reply(id, body) => OnReply(s, id, body)
    case LoginCompleted(loginId, success) => OnLoginCompleted(s, loginId, success, account)
    case _ =>
      if Named(m).None? || Named(m).value !in s.active then Outcome(s, [], true)
      else OnNotification(s, Named(m).value, m)
  }

  /** The clock arm: an expired login is cancelled, then an overdue turn ends the session. */
  function OnTick(s: State, loginExpired: bool, confirmed: bool, overdue: bool): Outcome {
    var first := if loginExpired then OnCancelLogin(s, confirmed) else Outcome(s, [], true);
    if first.ok && overdue && (|s.pending| > 0 || |s.active| > 0) then first.(ok := false) else first
  }

  ghost function Step(s: State, i: Input): Outcome {
    match i
    case Login(reply) => OnLogin(s, reply)
    case CancelLogin(confirmed) => OnCancelLogin(s, confirmed)
    case Logout(confirmed) => OnLogout(s, confirmed)
    case Prompt(c, text, wanted) => OnPrompt(s, c, text, wanted)
    case SetModel(wanted) => OnSetModel(s, wanted)
    case Reset(c) => OnReset(s, c)
    case Cancel(c) => OnCancel(s, c)
    case Incoming(m, account) => OnMessage(s, m, account)
    case Tick(loginExpired, confirmed, overdue) => OnTick(s, loginExpired, confirmed, overdue)
    case HangUp => Outcome(s, [], false)
  }

  function Initial(options: seq<ModelOption>, authenticated: bool): State {
    State(options, authenticated, Resolve(options, Choice(DEFAULT_MODEL, DEFAULT_EFFORT)), BOOTSTRAP_REQUESTS,
          map[], map[], map[], {}, None)
  }

  // ----- runs -----

  /** An input together with the point, if any, where a write or an event of its step
      fails: the effects from there on do not happen and `serve` returns. */
  datatype Move = Move(input: Input, cut: Option<nat>)

  datatype Session = Session(state: State, trace: seq<Effect>, closed: bool)

  ghost function Advance(x: Session, m: Move): Session {
    if x.closed then x
    else
      var o := Step(x.state, m.input);
      if m.cut.Some? && m.cut.value < |o.effects| then Session(o.state, x.trace + o.effects[..m.cut.value], true)
      else Session(o.state, x.trace + o.effects, !o.ok)
  }

  ghost function Run(x: Session, moves: seq<Move>): Session {
    if moves == [] then x else Advance(Run(x, moves[..|moves| - 1]), moves[|moves| - 1])
  }

  function Opening(options: seq<ModelOption>, authenticated: bool): Session {
    var s := Initial(options, authenticated);
    Session(s, if authenticated then [Emit(Ready), Emit(Models(s.choice))] else [Emit(LoginRequired)], false)
  }

  /** A turn is begun on a thread that has an active turn already. */
  predicate BeginsOn(e: Effect, active: map<string, Active>) {
    e.Send? && e.call.TurnStart? && e.call.thread in active
  }

  ghost predicate Overlaps(s: State, i: Input) {
    exists k :: 0 <= k < |Step(s, i).effects| && BeginsOn(Step(s, i).effects[k], s.active)
  }

  /** A step that does so and is carried out to its end. */
  ghost predicate Overlapping(x: Session, m: Move) {
    !x.closed && Overlaps(x.state, m.input) && !(m.cut.Some? && m.cut.value < |Step(x.state, m.input).effects|)
  }

  ghost predicate NoOverlap(x: Session, moves: seq<Move>) {
    forall n | 0 <= n < |moves| :: !Overlapping(Run(x, moves[..n]), moves[n])
  }

  /** The server does not give a new thread the id of one that some conversation still holds. */
  ghost predicate FreshThread(s: State, i: Input) {
    (i.Incoming? && i.message.Reply? && i.message.id in s.pending && s.pending[i.message.id].Thread?
     && i.message.body.Some? && i.message.body.value.thread.Some?)
    ==> i.message.body.value.thread.value !in s.ids.Values
  }

  ghost predicate FreshThreads(x: Session, moves: seq<Move>) {
    forall n | 0 <= n < |moves| :: FreshThread(Run(x, moves[..n]).state, moves[n].input)
  }
}
