/** The bridge as the program runs it: tables updated in place by one method per arm of
    `serve`. Each method is proved to do what the step function says, so every theorem
    about runs is a theorem about `Serve`. */
module Bridge {
  import opened Common
  import opened BridgeModel
  import opened BridgeSafety
  import opened BridgeLife

  /** The move that explains how far a step came. */
  ghost function Extend(start: Session, moves: seq<Move>, i: Input, trace: seq<Effect>, ok: bool): (m: Move)
    requires
      var x := Run(start, moves);
      var o := Step(x.state, i);
      && !x.closed && x.trace <= trace <= x.trace + o.effects
      && (ok ==> o.ok && trace == x.trace + o.effects)
      && (!ok && trace == x.trace + o.effects ==> !o.ok)
    ensures m.input == i && (m.cut.None? <==> trace == Run(start, moves).trace + Step(Run(start, moves).state, i).effects)
    ensures
      var y := Run(start, moves + [m]);
      y.trace == trace && y.closed == !ok && (ok ==> y.state == Step(Run(start, moves).state, i).state)
  {
    var x := Run(start, moves);
    var o := Step(x.state, i);
    var m := Move(i, if trace == x.trace + o.effects then None else Some(|trace| - |x.trace|));
    assert (moves + [m])[..|moves|] == moves;
    assert trace == x.trace + o.effects[..|trace| - |x.trace|];
    m
  }

  /** The run takes the inputs in order. */
  ghost predicate Takes(moves: seq<Move>, inputs: seq<Input>) {
    |moves| <= |inputs| && forall n | 0 <= n < |moves| :: moves[n].input == inputs[n]
  }

  /** Every step is carried out to its end. */
  ghost predicate Whole(moves: seq<Move>) {
    forall n | 0 <= n < |moves| :: moves[n].cut.None?
  }

  lemma TakesNext(moves: seq<Move>, m: Move, inputs: seq<Input>)
    requires Takes(moves, inputs) && |moves| < |inputs| && m.input == inputs[|moves|]
    ensures Takes(moves + [m], inputs)
    ensures Whole(moves) && m.cut.None? ==> Whole(moves + [m])
  {
  }

  /** A logout while no login is open: the two requests and, once confirmed, the event. */
  ghost predicate TwoRequests(s: State, confirmed: bool, o: Outcome) {
    && o.ok == confirmed
    && (confirmed ==>
          && o.effects == [Send(s.nextId + 1, AccountLogout), Send(s.nextId + 2, AccountRead), Emit(LoggedOut)]
          && o.state == State(s.options, false, s.choice, BOOTSTRAP_REQUESTS, map[], map[], map[], {}, None))
    && (!confirmed ==> o.effects == [Send(s.nextId + 1, AccountLogout), Send(s.nextId + 2, AccountRead)])
  }

  lemma LogoutWithoutLogin(s: State, confirmed: bool)
    requires s.login.None?
    ensures TwoRequests(s, confirmed, OnLogout(s, confirmed))
  {
  }

  class Bridge {
    const options: seq<ModelOption>
    var authenticated: bool
    var choice: Choice
    var nextId: nat
    var ids: map<Conversation, string>
    var pending: map<nat, Pending>
    var active: map<string, Active>
    var cancelled: set<Conversation>
    var login: Option<string>
    ghost var trace: seq<Effect>
    /** A write failed. */
    ghost var broken: bool

    ghost function View(): State
      reads this
    {
      State(options, authenticated, choice, nextId, ids, pending, active, cancelled, login)
    }

    ghost predicate Valid()
      reads this
    {
      Inv(View())
    }

    /** The state and the trace are those after outcome `o`, or a write failed part way
        through its effects. */
    ghost predicate After(was: seq<Effect>, wasBroken: bool, o: Outcome, ok: bool)
      reads this
    {
      && was <= trace <= was + o.effects
      && (ok ==> o.ok && View() == o.state && trace == was + o.effects)
      && (!ok && trace == was + o.effects ==> !o.ok)
      && (broken <==> wasBroken || trace != was + o.effects)
    }

    constructor (options: seq<ModelOption>, authenticated: bool)
      ensures View() == Initial(options, authenticated) && trace == [] && !broken
    {
      this.options := options;
      this.authenticated := authenticated;
      this.choice := Resolve(options, Choice(DEFAULT_MODEL, DEFAULT_EFFORT));
      this.nextId := BOOTSTRAP_REQUESTS;
      this.ids, this.pending, this.active, this.cancelled, this.login := map[], map[], map[], {}, None;
      this.trace, this.broken := [], false;
    }

    /** A frame written to the server or an event sent to the window; either may fail. */
    method Write(e: Effect) returns (ok: bool)
      modifies `trace, `broken
      ensures trace == if ok then old(trace) + [e] else old(trace)
      ensures broken == (old(broken) || !ok)
    {
      ok := *;
      if ok { trace := trace + [e]; } else { broken := true; }
    }

    method Call(call: Call) returns (ok: bool)
      modifies `nextId, `trace, `broken
      ensures nextId == old(nextId) + 1
      ensures broken == (old(broken) || !ok)
      ensures trace == if ok then old(trace) + [Send(nextId, call)] else old(trace)
    {
      nextId := nextId + 1;
      ok := Write(Send(nextId, call));
    }

    method BeginTurn(thread: string, c: Conversation, text: string, choice: Choice) returns (ok: bool)
      modifies `nextId, `pending, `active, `trace, `broken
      ensures After(old(trace), old(broken), BridgeModel.BeginTurn(old(View()), thread, c, text, choice), ok)
      ensures !ok ==> pending == old(pending) && active == old(active)
    {
      ok := Call(TurnStart(c, thread, text, choice));
      if !ok { return; }
      pending := pending[nextId := Turn(c)];
      active := active[thread := Fresh(c)];
    }

    method HandleLogin(reply: Option<LoginReply>) returns (ok: bool)
      modifies this
      ensures After(old(trace), old(broken), OnLogin(old(View()), reply), ok)
    {
      if authenticated || login.Some? { return true; }
      ok := Call(LoginStart);
      if !ok { return; }
      if reply.None? || reply.value.url.None? || !ValidLoginUrl(reply.value.url.value) { return false; }
      if !reply.value.chatgpt { return false; }
      if reply.value.id.None? || !ValidTurnId(reply.value.id.value) { return false; }
      login := reply.value.id;
      ok := Write(Emit(LoginUrl(reply.value.url.value)));
    }

    method HandleCancelLogin(confirmed: bool) returns (ok: bool)
      modifies this
      ensures After(old(trace), old(broken), OnCancelLogin(old(View()), confirmed), ok)
    {
      ok := true;
      if login.Some? {
        var id := login.value;
        login := None;
        ok := Call(LoginCancel(id));
        if !ok { return; }
        if !confirmed { return false; }
        ok := Write(Emit(LoginRequired));
      }
    }

    method HandleLogout(confirmed: bool) returns (ok: bool)
      modifies this
      ensures After(old(trace), old(broken), OnLogout(old(View()), confirmed), ok)
    {
      if login.Some? {
        var id := login.value;
        login := None;
        ok := Call(LoginCancel(id));
        if !ok { return; }
      }
      ok := EndSession(confirmed);
    }

    method AskLogout() returns (ok: bool)
      modifies `nextId, `trace, `broken
      ensures broken == (old(broken) || !ok)
      ensures
        var first, second := Send(old(nextId) + 1, AccountLogout), Send(old(nextId) + 2, AccountRead);
        if ok then nextId == old(nextId) + 2 && trace == old(trace) + [first, second]
        else trace == old(trace) || trace == old(trace) + [first]
    {
      ok := Call(AccountLogout);
      if ok { ok := Call(AccountRead); }
    }

    /** The two requests of a logout, and then a connection that begins anew. */
    method EndSession(confirmed: bool) returns (ok: bool)
      requires login.None?
      modifies this
      ensures After(old(trace), old(broken), OnLogout(old(View()), confirmed), ok)
    {
      LogoutWithoutLogin(View(), confirmed);
      hide OnLogout;
      ok := AskLogout();
      if !ok { return; }
      if !confirmed { return false; }
      nextId := BOOTSTRAP_REQUESTS;
      authenticated := false;
      ids, pending, active, cancelled := map[], map[], map[], {};
      ok := Write(Emit(LoggedOut));
    }

    method HandlePrompt(c: Conversation, text: string, wanted: Option<Choice>) returns (ok: bool)
      modifies this
      ensures After(old(trace), old(broken), OnPrompt(old(View()), c, text, wanted), ok)
    {
      var turnChoice := if wanted.Some? then wanted.value else choice;
      var refused :=
        || !authenticated || |text| > MAX_PROMPT || |pending| + |active| >= IN_FLIGHT
        || (exists t :: t in active && active[t].conversation == c)
        || (exists i :: i in pending && pending[i].conversation == c);
      assert refused == !Admits(View(), c, text);
      if refused {
        ok := Write(Emit(Failed(c, NotReady)));
      } else if Resolve(options, turnChoice) != turnChoice {
        ok := Write(Emit(Failed(c, ModelUnavailable)));
      } else {
        ok := Accept(c, text, turnChoice);
        assert OnPrompt(old(View()), c, text, wanted) == OnPrompt(old(View()), c, text, Some(turnChoice));
      }
    }

    method Accept(c: Conversation, text: string, turnChoice: Choice) returns (ok: bool)
      requires Admits(View(), c, text) && Resolve(options, turnChoice) == turnChoice
      modifies this
      ensures After(old(trace), old(broken), OnPrompt(old(View()), c, text, Some(turnChoice)), ok)
    {
      hide Admits, Resolve;
      trace := trace + [Accepted(c, text, turnChoice)];
      cancelled := cancelled - {c};
      if c in ids {
        ok := BeginTurn(ids[c], c, text, turnChoice);
      } else {
        ok := Call(ThreadStart(turnChoice.model));
        if !ok { return; }
        pending := pending[nextId := Thread(c, text, turnChoice)];
      }
    }

    method HandleSetModel(wanted: Choice) returns (ok: bool)
      modifies this
      ensures After(old(trace), old(broken), OnSetModel(old(View()), wanted), ok)
    {
      choice := Resolve(options, wanted);
      ok := true;
      if authenticated { ok := Write(Emit(Models(choice))); }
    }

    method HandleReset(c: Conversation) returns (ok: bool)
      modifies this
      ensures After(old(trace), old(broken), OnReset(old(View()), c), ok)
    {
      ok := true;
      if exists t :: t in active && active[t].conversation == c { return; }
      if c in ids {
        var thread := ids[c];
        ids := ids - {c};
        ok := Call(Unsubscribe(thread));
        if !ok { return; }
      }
      cancelled := cancelled - {c};
      trace := trace + [Unmuted(c)];
    }

    /** The loop over the active turns; at most one belongs to the conversation. */
    method InterruptTurns(c: Conversation, ghost s: State) returns (ok: bool)
      requires OneTurn(active) && s.active == active
      modifies `active, `nextId, `trace, `broken
      ensures ok ==> active == WithCancelled(s, c)
      ensures broken == (old(broken) || !ok)
      ensures
        if HasActive(s, c) && s.active[ThreadOf(s, c)].turn.Some? then
          && nextId == old(nextId) + 1
          && trace == if ok then old(trace) + [Send(nextId, Interrupt(c, ThreadOf(s, c), s.active[ThreadOf(s, c)].turn.value))]
                      else old(trace)
        else ok && nextId == old(nextId) && trace == old(trace)
    {
      ghost var hit := HasActive(s, c) && s.active[ThreadOf(s, c)].turn.Some?;
      ghost var target := if hit then ThreadOf(s, c) else "";
      ok := true;
      var left := active.Keys;
      while left != {}
        invariant ok && broken == old(broken) && left <= active.Keys == s.active.Keys
        invariant forall t | t in left :: active[t] == s.active[t]
        invariant forall t | t in active && t !in left :: active[t] == WithCancelled(s, c)[t]
        invariant
          if hit && target !in left
          then nextId == old(nextId) + 1 && trace == old(trace) + [Send(nextId, Interrupt(c, target, s.active[target].turn.value))]
          else nextId == old(nextId) && trace == old(trace)
      {
        var t :| t in left;
        left := left - {t};
        if active[t].conversation == c {
          assert HasActive(s, c) && t == ThreadOf(s, c);
          active := active[t := active[t].(cancelled := true)];
          if active[t].turn.Some? {
            ok := Call(Interrupt(c, t, active[t].turn.value));
            if !ok { return; }
          }
        }
      }
    }

    method HandleCancel(c: Conversation) returns (ok: bool)
      requires Valid()
      modifies this
      ensures After(old(trace), old(broken), OnCancel(old(View()), c), ok)
    {
      cancelled := cancelled + {c};
      trace := trace + [Muted(c)];
      ok := InterruptTurns(c, old(View()));
    }

    method FailRequest(c: Conversation, ghost s: State) returns (ok: bool)
      requires s.active == active
      modifies `active, `trace, `broken
      ensures active == WithoutActive(s, c)
      ensures broken == (old(broken) || !ok)
      ensures trace == if ok then old(trace) + [Emit(Failed(c, Provider))] else old(trace)
    {
      active := map t | t in active && active[t].conversation != c :: active[t];
      ok := Write(Emit(Failed(c, Provider)));
    }

    /** The thread of a new conversation; its prompt begins on it unless it was cancelled. */
    method AdoptThread(request: Pending, body: Body, ghost id: nat, ghost s: State) returns (ok: bool)
      requires id in s.pending && s.pending[id] == request && request.Thread?
      requires View() == s.(pending := s.pending - {id})
      modifies `ids, `nextId, `pending, `active, `trace, `broken
      ensures After(old(trace), old(broken), OnReply(s, id, Some(body)), ok)
    {
      hide ValidThreadId, ValidTurnId;
      var Thread(c, text, turnChoice) := request;
      if !body.ephemeral { return false; }
      if body.thread.None? || !ValidThreadId(body.thread.value) { return false; }
      var thread := body.thread.value;
      ids := ids[c := thread];
      if c !in cancelled {
        ok := BeginTurn(thread, c, text, turnChoice);
      } else {
        ok := Write(Emit(Done(c)));
      }
    }

    method HandleReply(id: nat, body: Option<Body>) returns (ok: bool)
      modifies this
      ensures After(old(trace), old(broken), OnReply(old(View()), id, body), ok)
    {
      hide ValidThreadId, ValidTurnId, WithoutActive;
      ok := true;
      if id !in pending { return; }
      var request := pending[id];
      pending := pending - {id};
      if body.None? {
        ok := FailRequest(request.conversation, old(View()));
        return;
      }
      match request {
        case Thread(_, _, _) => ok := AdoptThread(request, body.value, id, old(View()));
        case Turn(c) =>
          trace := trace + [Replied(c)];
          if c in ids && ids[c] in active { ok := BindReply(ids[c], body.value.turn); }
      }
    }

    /** The turn id that a reply carries; a turn cancelled before is interrupted now. */
    method BindReply(thread: string, turn: Option<string>) returns (ok: bool)
      requires thread in active
      modifies `active, `nextId, `trace, `broken
      ensures
        var a := old(active)[thread];
        if !Binds(a, turn) then !ok && trace == old(trace) && broken == old(broken)
        else
          && broken == (old(broken) || !ok)
          && active == old(active)[thread := a.(turn := turn)]
          && nextId == (if a.cancelled then old(nextId) + 1 else old(nextId))
          && (ok || a.cancelled)
          && trace == old(trace) + [Bound(a.conversation, turn.value)]
               + if ok && a.cancelled then [Send(nextId, Interrupt(a.conversation, thread, turn.value))] else []
    {
      ok := true;
      var state := active[thread];
      if !Binds(state, turn) { return false; }
      active := active[thread := state.(turn := turn)];
      trace := trace + [Bound(state.conversation, turn.value)];
      if state.cancelled { ok := Call(Interrupt(state.conversation, thread, turn.value)); }
    }

    method HandleLoginCompleted(loginId: Option<string>, success: bool, account: Option<bool>) returns (ok: bool)
      modifies `login, `nextId, `authenticated, `choice, `trace, `broken
      ensures After(old(trace), old(broken), OnLoginCompleted(old(View()), loginId, success, account), ok)
    {
      hide Resolve;
      if login.None? || loginId != login { return true; }
      login := None;
      ok := Call(AccountRead);
      if !ok { return; }
      if account.None? { return false; }
      authenticated := success && account.value;
      choice := Resolve(options, choice);
      ok := Write(Emit(if authenticated then Ready else LoginRequired));
      if ok && authenticated { ok := Write(Emit(Models(choice))); }
    }

    method HandleNotification(thread: string, m: Message) returns (ok: bool)
      requires thread in active
      modifies this
      ensures After(old(trace), old(broken), OnNotification(old(View()), thread, m), ok)
    {
      ok := true;
      var state := active[thread];
      match m {
        case TurnStarted(_, turn) =>
          if state.turn.None? {
            if !Binds(state, turn) { return false; }
            active := active[thread := state.(turn := turn)];
            trace := trace + [Bound(state.conversation, turn.value)];
          }
        case ItemStarted(_, forbidden) =>
          if forbidden {
            ok := Write(Emit(Blocked(state.conversation)));
            return false;
          }
        case Delta(_, turn, text) =>
          if !state.cancelled && state.turn.Some? && state.turn == turn {
            if text.None? { return false; }
            state := state.(bytes := state.bytes + |text.value|);
            active := active[thread := state];
            if state.bytes > MAX_ANSWER { return false; }
            ok := Write(Emit(Text(state.conversation, turn.value, text.value)));
          }
        case TurnCompleted(_, turn) =>
          if state.turn.Some? && state.turn == turn {
            active := active - {thread};
            ok := Write(Emit(Done(state.conversation)));
          }
        case _ =>
      }
    }

    method HandleTick(loginExpired: bool, confirmed: bool, overdue: bool) returns (ok: bool)
      modifies this
      ensures After(old(trace), old(broken), OnTick(old(View()), loginExpired, confirmed, overdue), ok)
    {
      ok := true;
      if loginExpired {
        ok := HandleCancelLogin(confirmed);
        if !ok { return; }
      }
      if overdue && (|pending| > 0 || |active| > 0) { ok := false; }
    }

    method Handle(i: Input) returns (ok: bool)
      requires Valid()
      modifies this
      ensures After(old(trace), old(broken), Step(old(View()), i), ok)
      ensures ok ==> Valid()
    {
      hide Inv;
      StepKeeps(View(), i);
      ok := true;
      match i {
        case Login(reply) => ok := HandleLogin(reply);
        case CancelLogin(confirmed) => ok := HandleCancelLogin(confirmed);
        case Logout(confirmed) => ok := HandleLogout(confirmed);
        case Prompt(c, text, wanted) => ok := HandlePrompt(c, text, wanted);
        case SetModel(wanted) => ok := HandleSetModel(wanted);
        case Reset(c) => ok := HandleReset(c);
        case Cancel(c) => ok := HandleCancel(c);
        case Tick(loginExpired, confirmed, overdue) => ok := HandleTick(loginExpired, confirmed, overdue);
        case HangUp => ok := false;
        case Incoming(m, account) =>
          match m {
            case Request => ok := Write(Deny);
            case Reply(id, body) => ok := HandleReply(id, body);
            case LoginCompleted(loginId, success) => ok := HandleLoginCompleted(loginId, success, account);
            case _ =>
              var thread := Named(m);
              if thread.Some? && thread.value in active { ok := HandleNotification(thread.value, m); }
          }
      }
    }

    /** The loop of `serve` over whatever arrives: its trace is that of a run of the model,
        which takes every input unless the session ends or could not be opened. No step is
        cut short unless a write failed. */
    method Serve(inputs: seq<Input>) returns (ghost moves: seq<Move>)
      requires View() == Initial(options, authenticated) && trace == [] && !broken
      modifies this
      ensures Takes(moves, inputs)
      ensures trace == Run(Opening(options, old(authenticated)), moves).trace
           || (moves == [] && trace <= Opening(options, old(authenticated)).trace)
      ensures |moves| < |inputs| ==>
                || Run(Opening(options, old(authenticated)), moves).closed
                || trace < Opening(options, old(authenticated)).trace
      ensures !broken ==> Whole(moves) && trace == Run(Opening(options, old(authenticated)), moves).trace
      ensures !Run(Opening(options, old(authenticated)), moves).closed && |moves| == |inputs| && |inputs| > 0
              ==> Valid() && View() == Run(Opening(options, old(authenticated)), moves).state
    {
      hide Step, Inv;
      ghost var start := Opening(options, authenticated);
      ghost var signedIn := authenticated;
      InitialHolds(options, authenticated);
      moves := [];
      assert Whole(moves) && Takes(moves, inputs);
      var ok := Write(Emit(if authenticated then Ready else LoginRequired));
      if ok && authenticated { ok := Write(Emit(Models(choice))); }
      if !ok { return; }
      assert Run(start, moves) == start;
      hide Run, Advance, Extend, Takes, Whole, Opening;
      var n := 0;
      while ok && n < |inputs|
        invariant n == |moves| <= |inputs| && Takes(moves, inputs)
        invariant trace == Run(start, moves).trace && Run(start, moves).closed == !ok
        invariant !broken ==> Whole(moves)
        invariant ok ==> Valid() && View() == Run(start, moves).state
      {
        ok := Handle(inputs[n]);
        ghost var move := Extend(start, moves, inputs[n], trace, ok);
        TakesNext(moves, move, inputs);
        moves := moves + [move];
        n := n + 1;
      }
    }
  }
}
