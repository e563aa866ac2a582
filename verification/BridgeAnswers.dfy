/** What the bridge owes to each input, stated without the functions that compute it.

    `Doing` is one input taken at the end of an open run. The statements speak of what the
    input asks for, of what was seen of a conversation so far, and of the inputs before. */
module BridgeAnswers {
  import opened Common
  import opened BridgeModel
  import opened BridgeSafety
  import opened BridgeLife
  import opened BridgeTheorems

  // ----- which model a choice means -----

  /** The option at `k` is the first one with that id. */
  predicate FirstWith(options: seq<ModelOption>, id: string, k: int) {
    0 <= k < |options| && options[k].id == id && forall j | 0 <= j < k :: options[j].id != id
  }

  predicate Unlisted(options: seq<ModelOption>, id: string) {
    forall j | 0 <= j < |options| :: options[j].id != id
  }

  /** `r` is what `wanted` comes to: its option or else the first one, its effort or else
      the default one, and without any option the two defaults. */
  ghost predicate Selects(options: seq<ModelOption>, wanted: Choice, r: Choice) {
    if options == [] then r == Choice("gpt-6.1-sol", "medium")
    else exists k :: SelectsAt(options, wanted, r, k)
  }

  predicate SelectsAt(options: seq<ModelOption>, wanted: Choice, r: Choice, k: int) {
    && 0 <= k < |options|
    && (FirstWith(options, wanted.model, k) || (k == 0 && Unlisted(options, wanted.model)))
    && r.model == options[k].id
    && r.effort == (if wanted.effort in options[k].efforts then wanted.effort else "medium")
  }

  /** The account can use exactly this model with this effort. */
  ghost predicate Lists(options: seq<ModelOption>, w: Choice) {
    exists k :: FirstWith(options, w.model, k) && w.effort in options[k].efforts
  }

  /** It can be asked for: listed so, or with the default effort; the two defaults without options. */
  ghost predicate Usable(options: seq<ModelOption>, w: Choice) {
    if options == [] then w == Choice("gpt-6.1-sol", "medium")
    else exists k :: FirstWith(options, w.model, k) && (w.effort in options[k].efforts || w.effort == "medium")
  }

  lemma {:induction false} FindIsFirst(options: seq<ModelOption>, id: string)
    ensures Find(options, id).None? <==> Unlisted(options, id)
    ensures Find(options, id).Some? ==> exists k :: FirstWith(options, id, k) && options[k] == Find(options, id).value
  {
    if options != [] {
      var rest := options[1..];
      FindIsFirst(rest, id);
      if options[0].id == id {
        assert FirstWith(options, id, 0);
      } else if Find(rest, id).Some? {
        var k :| FirstWith(rest, id, k) && rest[k] == Find(rest, id).value;
        assert FirstWith(options, id, k + 1);
      } else {
        forall j | 0 <= j < |options| ensures options[j].id != id { if j > 0 { assert options[j] == rest[j - 1]; } }
      }
    }
  }

  lemma ResolveSelects(options: seq<ModelOption>, wanted: Choice)
    ensures Selects(options, wanted, Resolve(options, wanted))
  {
    if options != [] {
      FindIsFirst(options, wanted.model);
      var found, r := Find(options, wanted.model), Resolve(options, wanted);
      if found.None? {
        assert SelectsAt(options, wanted, r, 0);
      } else {
        var k :| FirstWith(options, wanted.model, k) && options[k] == found.value;
        assert SelectsAt(options, wanted, r, k);
      }
    }
  }

  lemma SelectsOne(options: seq<ModelOption>, wanted: Choice, a: Choice, b: Choice)
    requires Selects(options, wanted, a) && Selects(options, wanted, b)
    ensures a == b
  {
    if options != [] {
      var j :| SelectsAt(options, wanted, a, j);
      var k :| SelectsAt(options, wanted, b, k);
      if FirstWith(options, wanted.model, j) && FirstWith(options, wanted.model, k) { assert j == k; }
    }
  }

  /** A model and effort that the options list mean just themselves. */
  lemma ListedIsItself(options: seq<ModelOption>, w: Choice, r: Choice)
    requires Lists(options, w) && Selects(options, w, r)
    ensures r == w
  {
    var k :| FirstWith(options, w.model, k) && w.effort in options[k].efforts;
    assert SelectsAt(options, w, w, k);
    SelectsOne(options, w, w, r);
  }

  lemma UsableIsFixed(options: seq<ModelOption>, w: Choice)
    ensures Resolve(options, w) == w <==> Usable(options, w)
  {
    ResolveSelects(options, w);
    if options != [] {
      if Usable(options, w) {
        var k :| FirstWith(options, w.model, k) && (w.effort in options[k].efforts || w.effort == "medium");
        assert SelectsAt(options, w, w, k);
        SelectsOne(options, w, w, Resolve(options, w));
      }
      if Resolve(options, w) == w {
        var k :| SelectsAt(options, w, w, k);
        assert FirstWith(options, w.model, k);
      }
    }
  }

  // ----- the choice in force -----

  /** What was asked for last, or at the beginning. */
  function LastWanted(moves: seq<Move>): Choice {
    if moves == [] then Choice("gpt-6.1-sol", "medium")
    else
      var last := moves[|moves| - 1].input;
      if last.SetModel? then last.model else LastWanted(moves[..|moves| - 1])
  }

  lemma StepChooses(s: State, i: Input)
    requires Inv(s)
    ensures Step(s, i).state.options == s.options
    ensures if i.SetModel? then Selects(s.options, i.model, Step(s, i).state.choice) else Step(s, i).state.choice == s.choice
  {
    hide OnNotification, OnPrompt, Exclusive, Linked, HasActive, ValidLoginUrl, Resolve;
    if i.SetModel? { ResolveSelects(s.options, i.model); }
    if i.Prompt? { PromptKeepsChoice(s, i); }
    if i.Incoming? && Named(i.message).Some? && Named(i.message).value in s.active {
      NotificationKeepsChoice(s, Named(i.message).value, i.message);
    }
  }

  lemma PromptKeepsChoice(s: State, i: Input)
    requires i.Prompt?
    ensures
      var s' := OnPrompt(s, i.conversation, i.text, i.wanted).state;
      s'.options == s.options && s'.choice == s.choice
  {
  }

  lemma NotificationKeepsChoice(s: State, thread: string, m: Message)
    requires thread in s.active
    ensures OnNotification(s, thread, m).state.options == s.options && OnNotification(s, thread, m).state.choice == s.choice
  {
  }

  /** In every open run the choice in force is what the last SetModel asked for, as far as the
      options have it. */
  lemma {:induction false} ChoiceInForce(options: seq<ModelOption>, authenticated: bool, moves: seq<Move>)
    ensures
      var x := Run(Opening(options, authenticated), moves);
      x.state.options == options && (!x.closed ==> Selects(options, LastWanted(moves), x.state.choice))
  {
    if moves == [] {
      ResolveSelects(options, Choice(DEFAULT_MODEL, DEFAULT_EFFORT));
    } else {
      hide Step, Inv, Selects;
      var before, last := moves[..|moves| - 1], moves[|moves| - 1];
      ChoiceInForce(options, authenticated, before);
      RunKeeps(options, authenticated, before);
      StepChooses(Run(Opening(options, authenticated), before).state, last.input);
    }
  }

  /** So a listed choice stays in force exactly as it was asked for until the next SetModel. */
  lemma {:induction false} ListedChoiceStays(
    options: seq<ModelOption>, authenticated: bool, moves: seq<Move>, n: nat, w: Choice)
    requires n < |moves| && moves[n].input == SetModel(w) && Lists(options, w)
    requires forall k | n < k < |moves| :: !moves[k].input.SetModel?
    ensures
      var x := Run(Opening(options, authenticated), moves);
      !x.closed ==> x.state.choice == w
  {
    var x := Run(Opening(options, authenticated), moves);
    ChoiceInForce(options, authenticated, moves);
    LastWantedIs(moves, n);
    if !x.closed { ListedIsItself(options, w, x.state.choice); }
  }

  lemma {:induction false} LastWantedIs(moves: seq<Move>, n: nat)
    requires n < |moves| && moves[n].input.SetModel? && forall k | n < k < |moves| :: !moves[k].input.SetModel?
    ensures LastWanted(moves) == moves[n].input.model
  {
    if n < |moves| - 1 { LastWantedIs(moves[..|moves| - 1], n); }
  }

  // ----- one more input -----

  ghost function Doing(options: seq<ModelOption>, authenticated: bool, moves: seq<Move>, i: Input): Outcome {
    Step(Run(Opening(options, authenticated), moves).state, i)
  }

  /** SetModel: the Models event shows the choice that is then in force. */
  lemma {:induction false} SetModelAnswer(options: seq<ModelOption>, authenticated: bool, moves: seq<Move>, w: Choice)
    requires !Run(Opening(options, authenticated), moves).closed
    ensures
      var o := Doing(options, authenticated, moves, SetModel(w));
      && o.ok && Selects(options, w, o.state.choice)
      && o.effects == if Run(Opening(options, authenticated), moves).state.authenticated then [Emit(Models(o.state.choice))] else []
  {
    ChoiceInForce(options, authenticated, moves);
    ResolveSelects(options, w);
    hide Resolve, Selects, Run;
  }

  /** Everything that a prompt may be refused for, other than its model. */
  ghost predicate Admitted(s: State, c: Conversation, text: string) {
    && s.authenticated && |text| <= 32768
    && |s.pending| + |s.active| < 8
    && (forall i | i in s.pending :: s.pending[i].conversation != c)
    && (forall t | t in s.active :: s.active[t].conversation != c)
  }

  /** A prompt begun: on the known thread of its conversation or with a request for one. */
  ghost predicate Begun(s: State, c: Conversation, text: string, choice: Choice, o: Outcome) {
    var id := s.nextId + 1;
    && id !in s.pending
    && c !in o.state.cancelled
    && (if c in s.ids then
          && o.effects == [Accepted(c, text, choice), Send(id, TurnStart(c, s.ids[c], text, choice))]
          && o.state.pending == s.pending[id := Turn(c)]
          && o.state.active == s.active[s.ids[c] := Active(c, false, None, 0)]
        else
          && o.effects == [Accepted(c, text, choice), Send(id, ThreadStart(choice.model))]
          && o.state.pending == s.pending[id := Thread(c, text, choice)]
          && o.state.active == s.active)
    && o.state.ids == s.ids
  }

  /** A prompt is refused for exactly the stated reasons, and a refusal changes nothing.
      Otherwise it is begun with its own choice, or with the one in force. */
  lemma {:induction false} PromptAnswer(
    options: seq<ModelOption>, authenticated: bool, moves: seq<Move>, c: Conversation, text: string, wanted: Option<Choice>)
    requires !Run(Opening(options, authenticated), moves).closed
    ensures
      var s := Run(Opening(options, authenticated), moves).state;
      var o := Doing(options, authenticated, moves, Prompt(c, text, wanted));
      o.ok && exists choice ::
        && (if wanted.Some? then choice == wanted.value else Selects(options, LastWanted(moves), choice))
        && (if !Admitted(s, c, text) then o.effects == [Emit(Failed(c, NotReady))] && o.state == s
            else if !Usable(options, choice) then o.effects == [Emit(Failed(c, ModelUnavailable))] && o.state == s
            else Begun(s, c, text, choice, o))
  {
    var s := Run(Opening(options, authenticated), moves).state;
    ChoiceInForce(options, authenticated, moves);
    RunKeeps(options, authenticated, moves);
    var choice := if wanted.Some? then wanted.value else s.choice;
    UsableIsFixed(options, choice);
    PromptDoes(s, c, text, wanted);
    hide Run, Resolve, Selects, Usable, Step, Inv;
  }

  lemma PromptDoes(s: State, c: Conversation, text: string, wanted: Option<Choice>)
    requires Inv(s)
    ensures
      var o := Step(s, Prompt(c, text, wanted));
      var choice := if wanted.Some? then wanted.value else s.choice;
      && o.ok
      && (if !Admitted(s, c, text) then o.effects == [Emit(Failed(c, NotReady))] && o.state == s
          else if Resolve(s.options, choice) != choice then o.effects == [Emit(Failed(c, ModelUnavailable))] && o.state == s
          else Begun(s, c, text, choice, o))
  {
    AdmitsAdmitted(s, c, text);
    hide Resolve, Exclusive, Linked, Admits, Admitted;
  }

  lemma AdmitsAdmitted(s: State, c: Conversation, text: string)
    ensures Admits(s, c, text) <==> Admitted(s, c, text)
  {
  }

  /** Cancel: the conversation is muted, and its running turn interrupted if it is bound. */
  lemma {:induction false} CancelAnswer(options: seq<ModelOption>, authenticated: bool, moves: seq<Move>, c: Conversation)
    requires !Run(Opening(options, authenticated), moves).closed
    ensures
      var x := Run(Opening(options, authenticated), moves);
      var o, life := Doing(options, authenticated, moves, Cancel(c)), Watch(c, START, x.trace).life;
      && o.ok && o.state.cancelled == x.state.cancelled + {c}
      && o.effects == [Muted(c)] +
           if life.Running? && life.turn.Some? then [Send(x.state.nextId + 1, Interrupt(c, life.thread, life.turn.value))] else []
  {
    var x := Run(Opening(options, authenticated), moves);
    EveryRunIsSeen(options, authenticated, moves, c);
    hide Run;
    CancelDoes(x.state, c, Watch(c, START, x.trace));
  }

  lemma CancelDoes(s: State, c: Conversation, v: View)
    requires Inv(s) && Agrees(s, c, v)
    ensures
      var o := Step(s, Cancel(c));
      && o.ok && o.state.cancelled == s.cancelled + {c}
      && o.effects == [Muted(c)] +
           if v.life.Running? && v.life.turn.Some? then [Send(s.nextId + 1, Interrupt(c, v.life.thread, v.life.turn.value))] else []
  {
    if HasActive(s, c) { assert s.ids[c] == ThreadOf(s, c); }
  }

  /** Reset: while a turn runs nothing happens; otherwise the conversation's thread is given
      up, so its next prompt asks for a new one, and it is heard again. */
  lemma {:induction false} ResetAnswer(options: seq<ModelOption>, authenticated: bool, moves: seq<Move>, c: Conversation)
    requires !Run(Opening(options, authenticated), moves).closed
    ensures
      var x := Run(Opening(options, authenticated), moves);
      var o, life := Doing(options, authenticated, moves, Reset(c)), Watch(c, START, x.trace).life;
      && o.ok
      && (if life.Running? then o.effects == [] && o.state == x.state
          else
            && c !in o.state.ids && c !in o.state.cancelled
            && o.state.ids == x.state.ids - {c} && o.state.cancelled == x.state.cancelled - {c}
            && o.state.pending == x.state.pending && o.state.active == x.state.active
            && o.effects == (if c in x.state.ids then [Send(x.state.nextId + 1, Unsubscribe(x.state.ids[c]))] else []) + [Unmuted(c)])
  {
    var x := Run(Opening(options, authenticated), moves);
    EveryRunIsSeen(options, authenticated, moves, c);
    hide Run;
    ResetDoes(x.state, c, Watch(c, START, x.trace));
  }

  lemma ResetDoes(s: State, c: Conversation, v: View)
    requires Inv(s) && Agrees(s, c, v)
    ensures
      var o := Step(s, Reset(c));
      && o.ok
      && (if v.life.Running? then o.effects == [] && o.state == s
          else
            && c !in o.state.ids && c !in o.state.cancelled
            && o.state.ids == s.ids - {c} && o.state.cancelled == s.cancelled - {c}
            && o.state.pending == s.pending && o.state.active == s.active
            && o.effects == (if c in s.ids then [Send(s.nextId + 1, Unsubscribe(s.ids[c]))] else []) + [Unmuted(c)])
  {
    if v.life.Running? { assert HasActive(s, c); }
  }

  // ----- what the server says of a running turn -----

  /** What a notification about the running turn of `c` must lead to. */
  ghost predicate Told(c: Conversation, v: View, m: Message, es: seq<Effect>, ok: bool)
    requires v.life.Running?
  {
    var known := v.life.turn;
    match m
    case TurnStarted(_, turn) =>
      if known.Some? then es == [] && ok
      else if turn.Some? && 0 < |turn.value| <= 128 then es == [Bound(c, turn.value)] && ok
      else es == [] && !ok
    case ItemStarted(_, forbidden) => es == (if forbidden then [Emit(Blocked(c))] else []) && ok == !forbidden
    case Delta(_, turn, text) =>
      if v.muted || known.None? || turn != known then es == [] && ok
      else if text.None? || v.life.bytes + |text.value| > 131072 then es == [] && !ok
      else es == [Emit(Text(c, known.value, text.value))] && ok
    case TurnCompleted(_, turn) =>
      if known.None? || turn != known then es == [] && ok else es == [Emit(Done(c))] && ok
    case _ => es == [] && ok
  }

  /** Every notification about a thread on which a conversation's turn runs has its effect:
      a turn is bound once, its text is forwarded whole until it is muted or too long, its
      completion is reported, a forbidden item ends the session. */
  lemma {:induction false} NotificationAnswer(
    options: seq<ModelOption>, authenticated: bool, moves: seq<Move>, c: Conversation, m: Message, account: Option<bool>)
    requires !Run(Opening(options, authenticated), moves).closed && Named(m).Some?
    ensures
      var x := Run(Opening(options, authenticated), moves);
      var o, v := Doing(options, authenticated, moves, Incoming(m, account)), Watch(c, START, x.trace);
      v.life.Running? && v.life.thread == Named(m).value ==> Told(c, v, m, o.effects, o.ok)
  {
    var x := Run(Opening(options, authenticated), moves);
    EveryRunIsSeen(options, authenticated, moves, c);
    hide Run, Inv;
    var life := Watch(c, START, x.trace).life;
    if life.Running? && life.thread == Named(m).value { NotificationDoes(x.state, c, Watch(c, START, x.trace), m, account); }
  }

  lemma NotificationDoes(s: State, c: Conversation, v: View, m: Message, account: Option<bool>)
    requires Agrees(s, c, v) && v.life.Running? && Named(m) == Some(v.life.thread)
    ensures Told(c, v, m, Step(s, Incoming(m, account)).effects, Step(s, Incoming(m, account)).ok)
  {
  }

  ghost predicate Unasked(s: State, m: Message) {
    || m.Unknown?
    || (m.Reply? && m.id !in s.pending)
    || (Named(m).Some? && Named(m).value !in s.active)
    || (m.LoginCompleted? && (s.login.None? || m.loginId != s.login))
  }

  /** A notification about any other thread, a reply that was not asked for and an unknown
      message do nothing; a request of the server is denied. */
  lemma {:induction false} UnaskedAnswer(
    options: seq<ModelOption>, authenticated: bool, moves: seq<Move>, m: Message, account: Option<bool>)
    requires !Run(Opening(options, authenticated), moves).closed
    ensures
      var s := Run(Opening(options, authenticated), moves).state;
      var o := Doing(options, authenticated, moves, Incoming(m, account));
      && (Unasked(s, m) ==> o == Outcome(s, [], true))
      && (m.Request? ==> o == Outcome(s, [Deny], true))
  {
    hide Run;
  }

  // ----- replies -----

  /** A request refused by the server ends its prompt, running or not. */
  ghost predicate Refused(s: State, id: nat, o: Outcome)
    requires id in s.pending
  {
    var c := s.pending[id].conversation;
    && o.ok && o.effects == [Emit(Failed(c, Provider))] && o.state.pending == s.pending - {id} && !HasActive(o.state, c)
  }

  /** The thread of a new conversation is kept, and its prompt begun on it unless it was
      cancelled meanwhile; a thread that cannot be used ends the session. */
  ghost predicate ThreadAnswered(s: State, v: View, id: nat, b: Body, o: Outcome)
    requires id in s.pending && s.pending[id].Thread?
  {
    var Thread(c, text, choice) := s.pending[id];
    if b.ephemeral && b.thread.Some? && 0 < |b.thread.value| <= 128
       && forall k | 0 <= k < |b.thread.value| :: ' ' <= b.thread.value[k] && b.thread.value[k] != '\U{007F}'
    then
      && o.ok && o.state.ids == s.ids[c := b.thread.value]
      && (if v.muted then o.effects == [Emit(Done(c))] && o.state.pending == s.pending - {id} && o.state.active == s.active
          else
            && o.effects == [Send(s.nextId + 1, TurnStart(c, b.thread.value, text, choice))]
            && o.state.pending == (s.pending - {id})[s.nextId + 1 := Turn(c)]
            && o.state.active == s.active[b.thread.value := Active(c, false, None, 0)])
    else !o.ok && o.effects == [] && id !in o.state.pending
  }

  /** The turn of a request is bound once, and interrupted if it was cancelled meanwhile;
      another turn than the one known ends the session. A turn that is over is not bound. */
  ghost predicate TurnAnswered(s: State, v: View, id: nat, b: Body, o: Outcome)
    requires id in s.pending && s.pending[id].Turn?
  {
    var c := s.pending[id].conversation;
    && o.state.pending == s.pending - {id}
    && (v.life.Running? || v.life.Draining?)
    && (v.life.Running? ==>
          if b.turn.Some? && 0 < |b.turn.value| <= 128 && (v.life.turn.None? || v.life.turn == b.turn)
          then
            && o.ok
            && o.effects == [Replied(c), Bound(c, b.turn.value)] +
                 if v.muted then [Send(s.nextId + 1, Interrupt(c, v.life.thread, b.turn.value))] else []
          else !o.ok && o.effects == [Replied(c)])
    && (v.life.Draining? && (forall t | t in s.active :: c !in s.ids || s.ids[c] != t)
        ==> o.ok && o.effects == [Replied(c)] && o.state.active == s.active)
  }

  ghost predicate Answered(s: State, v: View, id: nat, body: Option<Body>, o: Outcome)
    requires id in s.pending
  {
    if body.None? then Refused(s, id, o)
    else if s.pending[id].Thread? then ThreadAnswered(s, v, id, body.value, o)
    else TurnAnswered(s, v, id, body.value, o)
  }

  /** Each answer to a request that is still open. */
  lemma {:induction false} ReplyAnswer(
    options: seq<ModelOption>, authenticated: bool, moves: seq<Move>, id: nat, body: Option<Body>, account: Option<bool>)
    requires !Run(Opening(options, authenticated), moves).closed
    requires id in Run(Opening(options, authenticated), moves).state.pending
    ensures
      var x := Run(Opening(options, authenticated), moves);
      var v := Watch(x.state.pending[id].conversation, START, x.trace);
      Answered(x.state, v, id, body, Doing(options, authenticated, moves, Incoming(Reply(id, body), account)))
  {
    var x := Run(Opening(options, authenticated), moves);
    var c := x.state.pending[id].conversation;
    EveryRunIsSeen(options, authenticated, moves, c);
    ReplyDoes(x.state, Watch(c, START, x.trace), id, body);
    hide Run, Watch, Inv, Agrees, Answered, OnReply;
  }

  lemma ReplyDoes(s: State, v: View, id: nat, body: Option<Body>)
    requires Inv(s) && id in s.pending && Agrees(s, s.pending[id].conversation, v)
    ensures Answered(s, v, id, body, OnReply(s, id, body))
  {
    RequestsAreOpen(s, id, v);
    if body.Some? {
      if s.pending[id].Thread? { ThreadReplyDoes(s, v, id, body.value); }
      else { TurnReplyDoes(s, v, id, body.value); }
    }
    hide Inv, Agrees, ThreadAnswered, TurnAnswered;
  }

  /** What was observed of the conversation that asked. */
  lemma RequestsAreOpen(s: State, id: nat, v: View)
    requires Inv(s) && id in s.pending && Agrees(s, s.pending[id].conversation, v)
    ensures s.pending[id].Thread? ==> v.life.Waiting?
    ensures s.pending[id].Turn? ==> v.life.Draining? || (v.life.Running? && !v.life.replied)
  {
    var c := s.pending[id].conversation;
    assert HasPending(s, c);
    assert forall i | i in s.pending && s.pending[i].conversation == c :: i == id;
    hide Exclusive, Linked;
  }

  lemma ThreadReplyDoes(s: State, v: View, id: nat, b: Body)
    requires id in s.pending && s.pending[id].Thread? && v.life.Waiting? && Agrees(s, s.pending[id].conversation, v)
    ensures ThreadAnswered(s, v, id, b, OnReply(s, id, Some(b)))
  {
  }

  lemma TurnReplyDoes(s: State, v: View, id: nat, b: Body)
    requires id in s.pending && s.pending[id].Turn? && Agrees(s, s.pending[id].conversation, v)
    requires v.life.Running? || v.life.Draining?
    ensures TurnAnswered(s, v, id, b, OnReply(s, id, Some(b)))
  {
  }

  // ----- the account -----

  /** An address of the account service, of at most 8192 bytes and without control characters. */
  predicate Address(url: string) {
    && 40 <= |url| <= 8192 && url[..40] == "https://auth.openai.com/oauth/authorize?"
    && forall k | 0 <= k < |url| :: ' ' <= url[k] && url[k] != '\U{007F}'
  }

  /** Signing in: nothing while signed in or while a login is open. Otherwise one request, and
      its address is shown exactly when the answer is a ChatGPT login with a valid address and
      identifier, which is then the open login; any other answer ends the session. */
  lemma LoginAnswer(s: State, reply: Option<LoginReply>)
    ensures
      var o := Step(s, Login(reply));
      if s.authenticated || s.login.Some? then o == Outcome(s, [], true)
      else
        && |o.effects| > 0 && o.effects[0] == Send(s.nextId + 1, LoginStart)
        && (if reply.Some? && reply.value.chatgpt && reply.value.url.Some? && Address(reply.value.url.value)
               && reply.value.id.Some? && 0 < |reply.value.id.value| <= 128
            then o.ok && o.effects[1..] == [Emit(LoginUrl(reply.value.url.value))] && o.state.login == reply.value.id
            else !o.ok && o.effects[1..] == [])
        && !o.state.authenticated
  {
    if reply.Some? && reply.value.url.Some? { AddressIsValid(reply.value.url.value); }
    hide ValidLoginUrl, Address;
  }

  lemma AddressIsValid(url: string)
    ensures ValidLoginUrl(url) <==> Address(url)
  {
    var host := "https://auth.openai.com/oauth/authorize?";
    assert |host| == 40;
    assert host <= url ==> url[..40] == host;
  }

  /** An open login is cancelled by its identifier and is then open no more. */
  ghost predicate LoginCancelled(s: State, confirmed: bool, o: Outcome)
    requires s.login.Some?
  {
    && o.state.login == None && o.state.authenticated == s.authenticated
    && o.effects == [Send(s.nextId + 1, LoginCancel(s.login.value))] + (if confirmed then [Emit(LoginRequired)] else [])
    && (!confirmed ==> !o.ok)
  }

  lemma CancelLoginAnswer(s: State, confirmed: bool)
    ensures
      var o := Step(s, CancelLogin(confirmed));
      if s.login.None? then o == Outcome(s, [], true) else LoginCancelled(s, confirmed, o) && o.ok == confirmed
  {
  }

  /** The clock cancels a login that has expired, and ends the session when a request or a
      turn in flight is overdue; it does nothing else. */
  lemma TickAnswer(s: State, loginExpired: bool, confirmed: bool, overdue: bool)
    ensures
      var o := Step(s, Tick(loginExpired, confirmed, overdue));
      var refused, late := loginExpired && s.login.Some? && !confirmed, overdue && (s.pending != map[] || s.active != map[]);
      && (o.ok <==> !refused && !late)
      && (if loginExpired && s.login.Some? then LoginCancelled(s, confirmed, o) else o.effects == [] && o.state == s)
  {
    assert |s.pending| > 0 <==> s.pending != map[];
    assert |s.active| > 0 <==> s.active != map[];
  }

  /** A completed login is followed only if it is the open one. The account read then decides:
      signed in exactly if the login succeeded and the account is a ChatGPT one. */
  lemma {:induction false} LoginCompletedAnswer(
    options: seq<ModelOption>, authenticated: bool, moves: seq<Move>, success: bool, account: Option<bool>)
    requires !Run(Opening(options, authenticated), moves).closed && Run(Opening(options, authenticated), moves).state.login.Some?
    ensures
      var s := Run(Opening(options, authenticated), moves).state;
      var o := Doing(options, authenticated, moves, Incoming(LoginCompleted(s.login, success), account));
      && |o.effects| > 0 && o.effects[0] == Send(s.nextId + 1, AccountRead) && o.state.login == None
      && (if account.None? then !o.ok && o.effects[1..] == [] && !o.state.authenticated
          else
            && o.ok && (o.state.authenticated <==> success && account.value)
            && o.effects[1..] == if success && account.value then [Emit(Ready), Emit(Models(s.choice))] else [Emit(LoginRequired)])
  {
    RunKeeps(options, authenticated, moves);
    hide Run, Resolve;
  }

  /** A confirmed logout leaves the connection as it is opened without an account, with the
      model chosen before; an open login is cancelled first. */
  lemma LogoutAnswer(s: State, confirmed: bool)
    ensures
      var o := Step(s, Logout(confirmed));
      var n := if s.login.Some? then s.nextId + 1 else s.nextId;
      && o.ok == confirmed
      && (confirmed ==> o.state == Initial(s.options, false).(choice := s.choice))
      && (!confirmed ==> o.state.login == None)
      && o.effects == (if s.login.Some? then [Send(n, LoginCancel(s.login.value))] else [])
                      + [Send(n + 1, AccountLogout), Send(n + 2, AccountRead)]
                      + (if confirmed then [Emit(LoggedOut)] else [])
  {
  }

  /** The end of the window's commands ends the session. */
  lemma HangUpAnswer(s: State)
    ensures Step(s, HangUp) == Outcome(s, [], false)
  {
  }

  /** What an input has no part in stays as it was. */
  ghost predicate Spares(s: State, i: Input, s': State) {
    && (s'.authenticated != s.authenticated ==> i.Logout? || (i.Incoming? && i.message.LoginCompleted?))
    && (s'.login != s.login ==>
          i.Login? || i.CancelLogin? || i.Logout? || i.Tick? || (i.Incoming? && i.message.LoginCompleted?))
    && (s'.ids != s.ids ==> i.Reset? || i.Logout? || (i.Incoming? && i.message.Reply?))
    && (s'.cancelled != s.cancelled ==> i.Prompt? || i.Reset? || i.Cancel? || i.Logout?)
  }

  /** The account, the open login, the threads that conversations hold and the muted
      conversations are touched only by the inputs that concern them. */
  lemma NothingElseChanges(s: State, i: Input)
    ensures Spares(s, i, Step(s, i).state)
  {
    hide OnNotification, OnPrompt, OnReply, OnReset, OnCancel, OnLogout, OnLogin, OnCancelLogin, Resolve;
    match i {
      case Login(_) => AccountSpares(s, i);
      case CancelLogin(_) => AccountSpares(s, i);
      case Tick(_, _, _) => AccountSpares(s, i);
      case Incoming(m, _) =>
        if m.Reply? { ReplySpares(s, m.id, m.body); }
        else if Named(m).Some? && Named(m).value in s.active { NotificationSpares(s, Named(m).value, m); }
      case Prompt(c, text, wanted) => PromptSpares(s, c, text, wanted);
      case Reset(c) => ResetSpares(s, c);
      case Cancel(c) => CancelSpares(s, c);
      case Logout(_) =>
      case SetModel(_) =>
      case HangUp =>
    }
  }

  lemma AccountSpares(s: State, i: Input)
    requires i.Login? || i.CancelLogin? || i.Tick?
    ensures var s' := Step(s, i).state; s'.authenticated == s.authenticated && s'.ids == s.ids && s'.cancelled == s.cancelled
  {
    hide ValidLoginUrl;
  }

  lemma PromptSpares(s: State, c: Conversation, text: string, wanted: Option<Choice>)
    ensures
      var s' := OnPrompt(s, c, text, wanted).state;
      s'.authenticated == s.authenticated && s'.login == s.login && s'.ids == s.ids
  {
    hide Resolve, Admits;
  }

  lemma ResetSpares(s: State, c: Conversation)
    ensures var s' := OnReset(s, c).state; s'.authenticated == s.authenticated && s'.login == s.login
  {
  }

  lemma CancelSpares(s: State, c: Conversation)
    ensures
      var s' := OnCancel(s, c).state;
      s'.authenticated == s.authenticated && s'.login == s.login && s'.ids == s.ids
  {
  }

  lemma ReplySpares(s: State, id: nat, body: Option<Body>)
    ensures
      var s' := OnReply(s, id, body).state;
      s'.authenticated == s.authenticated && s'.login == s.login && s'.cancelled == s.cancelled
  {
    hide WithoutActive, Binds;
  }

  lemma NotificationSpares(s: State, thread: string, m: Message)
    requires thread in s.active
    ensures var s' := OnNotification(s, thread, m).state; s' == s.(active := s'.active)
  {
  }

  // ----- what was asked for is what is accepted -----

  /** The prompt accepted is one that was given, with its own choice or the one in force. */
  ghost predicate AskedBy(options: seq<ModelOption>, moves: seq<Move>, n: int, e: Effect)
    requires e.Accepted?
  {
    && 0 <= n < |moves| && moves[n].input.Prompt?
    && moves[n].input.conversation == e.conversation && moves[n].input.text == e.text
    && (if moves[n].input.wanted.Some? then e.choice == moves[n].input.wanted.value
        else Selects(options, LastWanted(moves[..n]), e.choice))
  }

  /** Every accepted prompt was asked for, with the text given and the model named in it, or
      else the one that the last SetModel before it selected. */
  lemma {:induction false} AcceptedAsAsked(options: seq<ModelOption>, authenticated: bool, moves: seq<Move>, k: nat)
    ensures
      var trace := Run(Opening(options, authenticated), moves).trace;
      k < |trace| && trace[k].Accepted? ==> exists n :: AskedBy(options, moves, n, trace[k])
  {
    if moves != [] {
      hide Selects, Step;
      var last := |moves| - 1;
      var before := moves[..last];
      var x, y := Run(Opening(options, authenticated), before), Run(Opening(options, authenticated), moves);
      assert y == Advance(x, moves[last]);
      if k < |y.trace| && y.trace[k].Accepted? {
        if k < |x.trace| {
          AcceptedAsAsked(options, authenticated, before, k);
          var n :| AskedBy(options, before, n, x.trace[k]);
          assert before[..n] == moves[..n];
          assert AskedBy(options, moves, n, y.trace[k]);
        } else {
          AcceptedLast(options, authenticated, moves, k);
        }
      }
    }
  }

  lemma AcceptedLast(options: seq<ModelOption>, authenticated: bool, moves: seq<Move>, k: nat)
    requires moves != []
    requires
      var x0 := Opening(options, authenticated);
      |Run(x0, moves[..|moves| - 1]).trace| <= k < |Run(x0, moves).trace| && Run(x0, moves).trace[k].Accepted?
    ensures AskedBy(options, moves, |moves| - 1, Run(Opening(options, authenticated), moves).trace[k])
  {
    hide Selects, Step;
    var last := |moves| - 1;
    var x := Run(Opening(options, authenticated), moves[..last]);
    AcceptedNow(x.state, moves[last].input, k - |x.trace|);
    ChoiceInForce(options, authenticated, moves[..last]);
  }

  lemma AcceptedNow(s: State, i: Input, k: nat)
    requires k < |Step(s, i).effects| && Step(s, i).effects[k].Accepted?
    ensures
      var e := Step(s, i).effects[k];
      && i.Prompt? && i.conversation == e.conversation && i.text == e.text
      && e.choice == if i.wanted.Some? then i.wanted.value else s.choice
  {
    hide Resolve, ValidLoginUrl, WithCancelled, WithoutActive, HasActive;
  }
}
