/**
 The control port and the stack task's life (src/bsdsocket/sb_netctl.c,
 src/bsdsocket/sb_stack.c, src/bsdsocket/main.c): clients post messages at any
 time, the stack task answers or parks them, programs open and close the
 library, and a shutdown takes the stack task down once the last of them is gone.

 A step is one message handled, one section under openLock, or one reply; steps
 of different tasks interleave freely.
 */
module NetCtl {
  import opened Basics

  const VERSION := 3
  const OK := 0
  const ERR_VERSION := -1
  const ERR_OP := -2
  const ERR_PARAM := -3
  const ERR_EXISTS := -4
  const ERR_NOTFOUND := -5
  const ERR_BUSY := -6
  const ERR_INACTIVE := -9
  const ERR_PENDING := -10
  const ERR_ABORTED := -11

  /** An interface description as a client sends it. */
  datatype Config = Config(
    named: bool, device: bool, kind: int, dhcp: bool, hasMtu: bool, mtu: int, hasMac: bool, macUsable: bool,
    addr: nat, hasMask: bool)

  datatype Op = AddIf(cfg: Config) | CancelAdd | RemIf(named: bool, force: bool) | Shutdown | CancelShutdown | Other

  datatype Msg = Msg(id: nat, version: int, op: Op)

  datatype Reply = Reply(id: nat, code: int)

  /** What the outside contributes to one handler: bring-up result, link and lease, name match, bound sockets. */
  datatype Env = Env(up: int, link: bool, lease: bool, found: bool, bound: nat)

  predicate ParamOk(c: Config) {
    && c.named && c.device && 0 <= c.kind <= 2
    && (c.hasMtu ==> c.mtu > 0) && (c.hasMac ==> c.macUsable)
    && (c.dhcp || (c.addr != 0 && c.hasMask))
  }

  /** Where the stack task is: serving, past the quit test, port withdrawn, interface down, or no task at all. */
  datatype Phase = Serving | Quitting | Withdrawn | Down | Gone

  /** An exiting task's last act: the reply it owes, its number, and the opens and closes since it let go. */
  datatype Last = Last(msg: nat, task: nat, opens: nat, closes: nat)

  /** What the handlers work on: the parked messages, the interface, the flag openers read, and the replies sent. */
  datatype Ctx = Ctx(adding: Option<Msg>, stopping: Option<nat>, created: bool, shuttingDown: bool, log: seq<Reply>)

  datatype Net = Net(
    ctx: Ctx, queue: seq<Msg>, task: nat, phase: Phase, openers: multiset<nat>, lasts: seq<Last>, sent: seq<nat>)

  function Say(c: Ctx, id: nat, code: int): Ctx { c.(log := c.log + [Reply(id, code)]) }

  // ---- the handlers ----

  predicate Operational(m: Msg, e: Env) { if m.op.AddIf? && m.op.cfg.dhcp then e.lease else e.link }

  /** Answer the parked ADD. */
  function Unpark(c: Ctx, code: int): Ctx
    requires c.adding.Some?
  {
    Say(c, c.adding.value.id, code).(adding := None)
  }

  /** sb_netctl_try_complete_add. */
  function TryComplete(c: Ctx, e: Env): Ctx {
    if c.adding.Some? && Operational(c.adding.value, e) then Unpark(c, OK) else c
  }

  function Add(c: Ctx, m: Msg, e: Env): Ctx
    requires m.op.AddIf?
  {
    if c.stopping.Some? then Say(c, m.id, ERR_INACTIVE)
    else if c.created || c.adding.Some? then Say(c, m.id, ERR_EXISTS)
    else if !ParamOk(m.op.cfg) then Say(c, m.id, ERR_PARAM)
    else if e.up != OK then Say(c, m.id, e.up)
    else TryComplete(c.(created := true, adding := Some(m)), e)
  }

  function Cancel(c: Ctx, m: Msg, e: Env): Ctx {
    if c.adding.None? then Say(c, m.id, ERR_NOTFOUND)
    else if Operational(c.adding.value, e) then Say(TryComplete(c, e), m.id, ERR_NOTFOUND)
    else Say(Unpark(c, ERR_PENDING), m.id, OK)
  }

  /** A parked ADD withdrawn by the stack. */
  function Withdraw(c: Ctx): Ctx { if c.adding.Some? then Unpark(c, ERR_INACTIVE) else c }

  function Remove(c: Ctx, m: Msg, e: Env): Ctx
    requires m.op.RemIf?
  {
    if c.stopping.Some? then Say(c, m.id, ERR_INACTIVE)
    else if !m.op.named then Say(c, m.id, ERR_PARAM)
    else if !(c.created && e.found) then Say(c, m.id, ERR_NOTFOUND)
    else if !m.op.force && e.bound > 0 then Say(c, m.id, ERR_BUSY)
    else Say(Withdraw(c).(created := false), m.id, OK)
  }

  function Stop(c: Ctx, m: Msg): Ctx {
    if c.stopping.Some? then Say(c, m.id, ERR_EXISTS) else c.(shuttingDown := true, stopping := Some(m.id))
  }

  function CancelStop(c: Ctx, m: Msg): Ctx {
    if c.stopping.None? then Say(c, m.id, ERR_NOTFOUND)
    else Say(Say(c, c.stopping.value, ERR_ABORTED).(shuttingDown := false, stopping := None), m.id, OK)
  }

  /** sb_netctl_handle. */
  function Handle(c: Ctx, m: Msg, e: Env): Ctx {
    if m.version != VERSION then Say(c, m.id, ERR_VERSION)
    else match m.op
      case AddIf(_) => Add(c, m, e)
      case CancelAdd => Cancel(c, m, e)
      case RemIf(_, _) => Remove(c, m, e)
      case Shutdown => Stop(c, m)
      case CancelShutdown => CancelStop(c, m)
      case Other => Say(c, m.id, ERR_OP)
  }

  // ---- what the answers mean ----

  /** m is answered with code at once, and nothing else happens. */
  ghost predicate Refused(c: Ctx, r: Ctx, m: Msg, code: int) { r == c.(log := c.log + [Reply(m.id, code)]) }

  /** ADD: the first test it fails decides the answer; one that passes all has its interface and waits, or is OK at once. */
  lemma {:induction false} AddAnswers(c: Ctx, m: Msg, e: Env)
    requires m.version == 3 && m.op.AddIf?
    ensures var r, f, waits := Handle(c, m, e), m.op.cfg, if m.op.cfg.dhcp then !e.lease else !e.link;
      if c.stopping.Some? then Refused(c, r, m, -9)
      else if c.created || c.adding.Some? then Refused(c, r, m, -4)
      else if !f.named || !f.device || f.kind < 0 || f.kind > 2 || (f.hasMtu && f.mtu <= 0) || (f.hasMac && !f.macUsable)
              || (!f.dhcp && (f.addr == 0 || !f.hasMask)) then Refused(c, r, m, -3)
      else if e.up != 0 then Refused(c, r, m, e.up)
      else r == c.(created := true, adding := if waits then Some(m) else None, log := if waits then c.log else c.log + [Reply(m.id, 0)])
  {
  }

  /** CANCEL_ADD and REM_IF, likewise. */
  lemma {:induction false} UndoAnswers(c: Ctx, m: Msg, e: Env)
    requires m.version == 3 && (m.op.CancelAdd? || m.op.RemIf?)
    ensures m.op.CancelAdd? ==>
      var r := Handle(c, m, e);
      if c.adding.None? then Refused(c, r, m, -5)
      else if Operational(c.adding.value, e)
        then r == c.(adding := None, log := c.log + [Reply(c.adding.value.id, 0)] + [Reply(m.id, -5)])
      else r == c.(adding := None, log := c.log + [Reply(c.adding.value.id, -10)] + [Reply(m.id, 0)])
    ensures m.op.RemIf? ==>
      var r := Handle(c, m, e);
      if c.stopping.Some? then Refused(c, r, m, -9)
      else if !m.op.named then Refused(c, r, m, -3)
      else if !c.created || !e.found then Refused(c, r, m, -5)
      else if !m.op.force && e.bound > 0 then Refused(c, r, m, -6)
      else r == c.(created := false, adding := None,
                   log := c.log + (if c.adding.Some? then [Reply(c.adding.value.id, -9)] else []) + [Reply(m.id, 0)])
  {
  }

  /** SHUTDOWN and its cancellation, an operation unknown, and a version that is not ours. */
  lemma {:induction false} StopAnswers(c: Ctx, m: Msg, e: Env)
    ensures m.version != 3 ==> Refused(c, Handle(c, m, e), m, -1)
    ensures m.version == 3 && m.op.Other? ==> Refused(c, Handle(c, m, e), m, -2)
    ensures m.version == 3 && m.op.Shutdown? ==>
      var r := Handle(c, m, e);
      if c.stopping.Some? then Refused(c, r, m, -4) else r == c.(shuttingDown := true, stopping := Some(m.id))
    ensures m.version == 3 && m.op.CancelShutdown? ==>
      var r := Handle(c, m, e);
      if c.stopping.None? then Refused(c, r, m, -5)
      else r == c.(shuttingDown := false, stopping := None, log := c.log + [Reply(c.stopping.value, -11)] + [Reply(m.id, 0)])
  {
  }

  /** What message x stands for when the message being handled is m: itself, or the ADD parked before. */
  ghost predicate OkFor(c: Ctx, r: Ctx, m: Msg, e: Env, id: nat) {
    || (c.adding.Some? && id == c.adding.value.id && Operational(c.adding.value, e) && r.created)
    || (id == m.id && match m.op
          case AddIf(_) => !c.created && r.created && Operational(m, e)
          case CancelAdd => c.adding.Some? && r.adding.None? && r.created && Reply(c.adding.value.id, ERR_PENDING) in r.log
          case RemIf(_, force) => c.created && !r.created && r.adding.None? && e.found && (force || e.bound == 0)
          case CancelShutdown => c.stopping.Some? && r.stopping.None? && !r.shuttingDown && Reply(c.stopping.value, ERR_ABORTED) in r.log
          case _ => false)
  }

  /**
   What OK means, whoever gets it: an ADD's interface is there and operational; a
   cancelled ADD was told that it is still pending and its interface stays; a
   removed interface is gone, with no ADD waiting for it; a cancelled SHUTDOWN was
   told so and opens are admitted again.
   */
  lemma {:induction false} OkMeans(c: Ctx, m: Msg, e: Env, i: nat)
    requires c.adding.Some? ==> c.created
    requires |c.log| <= i < |Handle(c, m, e).log| && Handle(c, m, e).log[i].code == OK
    ensures OkFor(c, Handle(c, m, e), m, e, Handle(c, m, e).log[i].id)
  {
    StopAnswers(c, m, e);
    if m.version == 3 {
      match m.op
      case AddIf(_) => AddAnswers(c, m, e);
      case CancelAdd => UndoAnswers(c, m, e);
      case RemIf(_, _) => UndoAnswers(c, m, e);
      case _ =>
    }
    hide Handle, ParamOk;
  }

  // ---- the steps ----

  datatype Step =
    | Post(m: Msg)
    | Serve(e: Env)
    | Tick(e: Env)
    | TestReady
    | Unpublish
    | AnswerOne
    | TakeDown
    | LetGo
    | LastReply(k: nat)
    | Open(ok: bool)
    | Close(t: nat)

  /** Opens and closes while an exiting task still owes its reply. */
  function Noted(lasts: seq<Last>, opens: nat, closes: nat): (r: seq<Last>)
    ensures |r| == |lasts|
    ensures forall i :: 0 <= i < |lasts| ==>
      r[i] == Last(lasts[i].msg, lasts[i].task, lasts[i].opens + opens, lasts[i].closes + closes)
  {
    seq(|lasts|, i requires 0 <= i < |lasts| =>
      Last(lasts[i].msg, lasts[i].task, lasts[i].opens + opens, lasts[i].closes + closes))
  }

  predicate Enabled(s: Net, a: Step) {
    match a
    case Post(m) => (s.phase.Serving? || s.phase.Quitting?) && m.id !in s.sent
    case Serve(e) => s.phase.Serving? && s.queue != []
    case Tick(e) => s.phase.Serving?
    case TestReady => s.phase.Serving?
    case Unpublish => s.phase.Quitting?
    case AnswerOne => s.phase.Withdrawn? && s.queue != []
    case TakeDown => s.phase.Withdrawn? && s.queue == []
    case LetGo => s.phase.Down?
    case LastReply(k) => k < |s.lasts|
    case Open(_) => true
    case Close(t) => t in s.openers
  }

  /** The replies an exiting task still has to send, once it has let go. */
  function Owed(s: Net): seq<Last> {
    if s.ctx.stopping.Some? then s.lasts + [Last(s.ctx.stopping.value, s.task, 0, 0)] else s.lasts
  }

  /**
   LibOpen: refused while shutting down; the first one starts a stack task. ok
   says whether memory for the opener was found; a started task stays without it.
   */
  function Opened(s: Net, ok: bool): Net {
    if s.ctx.shuttingDown then s
    else if s.phase.Gone? then
      s.(ctx := Ctx(None, None, false, false, s.ctx.log), task := s.task + 1, phase := Serving,
         openers := if ok then s.openers + multiset{s.task + 1} else s.openers, lasts := Noted(s.lasts, One(ok), 0))
    else if ok then s.(openers := s.openers + multiset{s.task}, lasts := Noted(s.lasts, 1, 0))
    else s
  }

  function Next(s: Net, a: Step): Net
    requires Enabled(s, a)
  {
    match a
    case Post(m) => s.(queue := s.queue + [m], sent := s.sent + [m.id])
    case Serve(e) => s.(ctx := Handle(s.ctx, s.queue[0], e), queue := s.queue[1..])
    case Tick(e) => s.(ctx := TryComplete(s.ctx, e))
    case TestReady => if s.ctx.stopping.Some? && |s.openers| == 0 then s.(phase := Quitting) else s
    case Unpublish => s.(ctx := Withdraw(s.ctx), phase := Withdrawn)
    case AnswerOne => s.(ctx := Say(s.ctx, s.queue[0].id, ERR_INACTIVE), queue := s.queue[1..])
    case TakeDown => s.(ctx := s.ctx.(created := false), phase := Down)
    case LetGo => s.(ctx := s.ctx.(stopping := None, shuttingDown := false), phase := Gone, lasts := Owed(s))
    case LastReply(k) => s.(ctx := Say(s.ctx, s.lasts[k].msg, OK), lasts := s.lasts[..k] + s.lasts[k + 1..])
    case Open(ok) => Opened(s, ok)
    case Close(t) => s.(openers := s.openers - multiset{t}, lasts := Noted(s.lasts, 0, 1))
  }

  // ---- accounting, message by message ----

  function InQueue(q: seq<Msg>, id: nat): nat { if q == [] then 0 else One(q[0].id == id) + InQueue(q[1..], id) }

  function Answers(q: seq<Reply>, id: nat): nat {
    if q == [] then 0 else Answers(q[..|q| - 1], id) + One(q[|q| - 1].id == id)
  }

  function InLasts(q: seq<Last>, id: nat): nat { if q == [] then 0 else One(q[0].msg == id) + InLasts(q[1..], id) }

  function Parked(c: Ctx, id: nat): nat {
    One(c.adding.Some? && c.adding.value.id == id) + One(c.stopping.Some? && c.stopping.value == id)
  }

  /** How often the handlers have a message: parked or answered. */
  function Taken(c: Ctx, id: nat): nat { Parked(c, id) + Answers(c.log, id) }

  lemma {:induction false} SayTakes(c: Ctx, m: nat, code: int, id: nat)
    ensures Taken(Say(c, m, code), id) == Taken(c, id) + One(m == id)
  {
    assert (c.log + [Reply(m, code)])[..|c.log|] == c.log;
  }

  lemma {:induction false} UnparkTakes(c: Ctx, code: int, id: nat)
    requires c.adding.Some?
    ensures Taken(Unpark(c, code), id) == Taken(c, id)
  {
    SayTakes(c, c.adding.value.id, code, id);
    hide Answers;
  }

  lemma {:induction false} CompleteTakes(c: Ctx, e: Env, id: nat)
    ensures Taken(TryComplete(c, e), id) == Taken(c, id) == Taken(Withdraw(c), id)
  {
    hide Taken;
    if c.adding.Some? {
      UnparkTakes(c, OK, id);
      UnparkTakes(c, ERR_INACTIVE, id);
    }
  }

  lemma {:induction false} AddTakes(c: Ctx, m: Msg, e: Env, id: nat)
    requires m.op.AddIf?
    ensures Taken(Add(c, m, e), id) == Taken(c, id) + One(m.id == id)
  {
    hide Answers, Say, TryComplete, ParamOk;
    forall code ensures Taken(Say(c, m.id, code), id) == Taken(c, id) + One(m.id == id) {
      SayTakes(c, m.id, code, id);
    }
    CompleteTakes(c.(created := true, adding := Some(m)), e, id);
  }

  lemma {:induction false} CancelTakes(c: Ctx, m: Msg, e: Env, id: nat)
    ensures Taken(Cancel(c, m, e), id) == Taken(c, id) + One(m.id == id)
  {
    hide Taken, Say;
    CompleteTakes(c, e, id);
    SayTakes(c, m.id, ERR_NOTFOUND, id);
    SayTakes(TryComplete(c, e), m.id, ERR_NOTFOUND, id);
    if c.adding.Some? {
      UnparkTakes(c, ERR_PENDING, id);
      SayTakes(Unpark(c, ERR_PENDING), m.id, OK, id);
    }
  }

  lemma {:induction false} RemoveTakes(c: Ctx, m: Msg, e: Env, id: nat)
    requires m.op.RemIf?
    ensures Taken(Remove(c, m, e), id) == Taken(c, id) + One(m.id == id)
  {
    hide Answers, Say, Withdraw;
    forall code ensures Taken(Say(c, m.id, code), id) == Taken(c, id) + One(m.id == id) {
      SayTakes(c, m.id, code, id);
    }
    CompleteTakes(c, e, id);
    SayTakes(Withdraw(c).(created := false), m.id, OK, id);
  }

  lemma {:induction false} CancelStopTakes(c: Ctx, m: Msg, id: nat)
    ensures Taken(CancelStop(c, m), id) == Taken(c, id) + One(m.id == id)
  {
    hide Answers;
    SayTakes(c, m.id, ERR_NOTFOUND, id);
    if c.stopping.Some? {
      SayTakes(c, c.stopping.value, ERR_ABORTED, id);
      SayTakes(Say(c, c.stopping.value, ERR_ABORTED).(shuttingDown := false, stopping := None), m.id, OK, id);
    }
  }

  /** Every handler parks or answers the message it is given, once, and answers only what was parked besides. */
  lemma {:induction false} HandleTakes(c: Ctx, m: Msg, e: Env, id: nat)
    ensures Taken(Handle(c, m, e), id) == Taken(c, id) + One(m.id == id)
  {
    hide Answers, Add, Cancel, Remove, CancelStop, Say;
    SayTakes(c, m.id, ERR_VERSION, id);
    SayTakes(c, m.id, ERR_OP, id);
    SayTakes(c, m.id, ERR_EXISTS, id);
    match m.op
    case AddIf(_) => AddTakes(c, m, e, id);
    case CancelAdd => CancelTakes(c, m, e, id);
    case RemIf(_, _) => RemoveTakes(c, m, e, id);
    case Shutdown =>
    case CancelShutdown => CancelStopTakes(c, m, id);
    case Other =>
  }

  /** A message sent is waiting, owed as a last act, parked, or answered, and only one of these, once. */
  ghost predicate Accounted(s: Net, id: nat) {
    One(id in s.sent) == InQueue(s.queue, id) + InLasts(s.lasts, id) + Taken(s.ctx, id)
  }

  lemma {:induction false} QueueSnoc(q: seq<Msg>, m: Msg, id: nat)
    ensures InQueue(q + [m], id) == InQueue(q, id) + One(m.id == id)
  {
    if q == [] {
      assert ([] + [m])[1..] == [];
    } else {
      assert (q + [m])[1..] == q[1..] + [m];
      QueueSnoc(q[1..], m, id);
    }
  }

  lemma {:induction false} LastSnoc(q: seq<Last>, x: Last, id: nat)
    ensures InLasts(q + [x], id) == InLasts(q, id) + One(x.msg == id)
  {
    if q == [] {
      assert ([] + [x])[1..] == [];
    } else {
      assert (q + [x])[1..] == q[1..] + [x];
      LastSnoc(q[1..], x, id);
    }
  }

  lemma {:induction false} LastRemoved(q: seq<Last>, k: nat, id: nat)
    requires k < |q|
    ensures InLasts(q, id) == InLasts(q[..k] + q[k + 1..], id) + One(q[k].msg == id)
  {
    if k > 0 {
      LastRemoved(q[1..], k - 1, id);
      assert (q[..k] + q[k + 1..])[1..] == q[1..][..k - 1] + q[1..][k..];
    } else {
      assert q[..0] + q[1..] == q[1..];
    }
  }

  lemma {:induction false} NotedLasts(q: seq<Last>, opens: nat, closes: nat, id: nat)
    ensures InLasts(Noted(q, opens, closes), id) == InLasts(q, id)
    decreases |q|
  {
    if q != [] {
      assert Noted(q, opens, closes)[1..] == Noted(q[1..], opens, closes);
      NotedLasts(q[1..], opens, closes, id);
    }
  }

  lemma {:induction false} OpenAccounts(s: Net, ok: bool, id: nat)
    requires Accounted(s, id) && Ordered(s)
    ensures Accounted(Opened(s, ok), id)
  {
    hide InLasts, Answers, InQueue, Noted;
    NotedLasts(s.lasts, One(ok), 0, id);
    NotedLasts(s.lasts, 1, 0, id);
  }

  lemma {:induction false} StepAccounts(s: Net, a: Step, id: nat)
    requires Accounted(s, id) && Ordered(s) && Enabled(s, a)
    ensures Accounted(Next(s, a), id)
  {
    hide InLasts, Answers, Handle, TryComplete, Withdraw, Opened, Noted, Ordered;
    match a
    case Post(m) => QueueSnoc(s.queue, m, id); hide InQueue;
    case Serve(e) => HandleTakes(s.ctx, s.queue[0], e, id); hide Taken;
    case Tick(e) => CompleteTakes(s.ctx, e, id); hide Taken;
    case TestReady =>
    case Unpublish => CompleteTakes(s.ctx, Env(0, false, false, false, 0), id); hide Taken;
    case AnswerOne => SayTakes(s.ctx, s.queue[0].id, ERR_INACTIVE, id); hide Taken;
    case TakeDown =>
    case LetGo =>
      if s.ctx.stopping.Some? {
        LastSnoc(s.lasts, Last(s.ctx.stopping.value, s.task, 0, 0), id);
      }
    case LastReply(k) =>
      LastRemoved(s.lasts, k, id);
      SayTakes(s.ctx, s.lasts[k].msg, OK, id);
      hide Taken;
    case Open(ok) => OpenAccounts(s, ok, id);
    case Close(t) => NotedLasts(s.lasts, 0, 1, id);
  }

  // ---- order ----

  /** A parked ADD has its interface, and a parked SHUTDOWN keeps new openers out. */
  ghost predicate ParkedOk(c: Ctx) {
    && (c.adding.Some? ==> c.created && c.adding.value.op.AddIf?)
    && (c.shuttingDown <==> c.stopping.Some?)
  }

  /** What each phase of the stack task excludes. */
  ghost predicate PhaseOk(s: Net) {
    && (s.ctx.adding.Some? ==> s.phase.Serving? || s.phase.Quitting?)
    && (s.phase.Quitting? || s.phase.Withdrawn? || s.phase.Down? ==> s.ctx.stopping.Some?)
    && (s.phase.Down? || s.phase.Gone? ==> s.queue == [])
    && (s.phase.Gone? ==> s.ctx.stopping.None?)
    && (!s.phase.Serving? ==> s.openers == multiset{})
  }

  /** Openers belong to the present task; tasks that still owe a reply are earlier, or gone, and counted them in and out. */
  ghost predicate TasksOk(lasts: seq<Last>, openers: multiset<nat>, task: nat, phase: Phase) {
    && (forall t :: t in openers ==> t == task)
    && (forall i :: 0 <= i < |lasts| ==> lasts[i].task <= task && (!phase.Gone? ==> lasts[i].task < task))
    && (forall i :: 0 <= i < |lasts| ==> lasts[i].opens == lasts[i].closes + |openers|)
  }

  ghost predicate Ordered(s: Net) { ParkedOk(s.ctx) && PhaseOk(s) && TasksOk(s.lasts, s.openers, s.task, s.phase) }

  lemma {:induction false} HandleParks(c: Ctx, m: Msg, e: Env)
    requires ParkedOk(c)
    ensures ParkedOk(Handle(c, m, e))
  {
    hide ParamOk, Operational;
  }

  lemma {:induction false} LastOrdered(lasts: seq<Last>, k: nat, openers: multiset<nat>, task: nat, phase: Phase)
    requires TasksOk(lasts, openers, task, phase) && k < |lasts|
    ensures TasksOk(lasts[..k] + lasts[k + 1..], openers, task, phase)
  {
    var r := lasts[..k] + lasts[k + 1..];
    assert forall i :: 0 <= i < |r| ==> r[i] == lasts[if i < k then i else i + 1];
  }

  lemma {:induction false} OpenOrdered(s: Net, ok: bool)
    requires Ordered(s)
    ensures Ordered(Opened(s, ok))
  {
  }

  lemma {:induction false} LetGoOrdered(s: Net)
    requires Ordered(s) && s.phase.Down?
    ensures Ordered(Next(s, LetGo))
  {
  }

  lemma {:induction false} CloseTasks(lasts: seq<Last>, openers: multiset<nat>, t: nat, task: nat, phase: Phase)
    requires TasksOk(lasts, openers, task, phase) && t in openers
    ensures TasksOk(Noted(lasts, 0, 1), openers - multiset{t}, task, phase)
  {
    assert |openers - multiset{t}| == |openers| - 1;
  }

  lemma {:induction false} StepOrdered(s: Net, a: Step)
    requires Ordered(s) && Enabled(s, a)
    ensures Ordered(Next(s, a))
  {
    hide Handle, Opened, Operational, TasksOk, Owed;
    match a
    case Serve(e) => HandleParks(s.ctx, s.queue[0], e);
    case Open(ok) => OpenOrdered(s, ok);
    case LastReply(k) => LastOrdered(s.lasts, k, s.openers, s.task, s.phase);
    case Post(_) =>
    case Tick(_) =>
    case TestReady => TasksSame(s.lasts, s.openers, s.task, s.phase, Quitting);
    case Unpublish => TasksSame(s.lasts, s.openers, s.task, s.phase, Withdrawn);
    case AnswerOne =>
    case TakeDown => TasksSame(s.lasts, s.openers, s.task, s.phase, Down);
    case LetGo => LetGoOrdered(s);
    case Close(t) => CloseTasks(s.lasts, s.openers, t, s.task, s.phase);
  }

  lemma {:induction false} TasksSame(lasts: seq<Last>, openers: multiset<nat>, task: nat, p: Phase, r: Phase)
    requires TasksOk(lasts, openers, task, p) && !p.Gone? && !r.Gone?
    ensures TasksOk(lasts, openers, task, r)
  {
  }

  ghost predicate Inv(s: Net, id: nat) { Accounted(s, id) && Ordered(s) }

  // ---- runs ----

  ghost predicate Run(ss: seq<Net>, xs: seq<Step>) {
    |ss| == |xs| + 1 && forall i :: 0 <= i < |xs| ==> Enabled(ss[i], xs[i]) && ss[i + 1] == Next(ss[i], xs[i])
  }

  /** The library just loaded: no stack task yet. */
  ghost predicate Loaded(s: Net) {
    s == Net(Ctx(None, None, false, false, []), [], 0, Gone, multiset{}, [], [])
  }

  lemma {:induction false} AlwaysInv(ss: seq<Net>, xs: seq<Step>, i: nat, id: nat)
    requires Run(ss, xs) && Loaded(ss[0]) && i < |ss|
    ensures Inv(ss[i], id)
  {
    hide Next, Enabled;
    if i > 0 {
      AlwaysInv(ss, xs, i - 1, id);
      StepAccounts(ss[i - 1], xs[i - 1], id);
      StepOrdered(ss[i - 1], xs[i - 1]);
      hide Accounted, Ordered;
    }
  }

  /**
   In every run a message sent is answered at most once, and until then it is in
   exactly one place: the port, parked, or owed by an exiting task. Nothing else
   is ever answered, and once the stack is gone and its last reply out, every
   message has had its one answer.
   */
  lemma {:induction false} AnsweredOnce(ss: seq<Net>, xs: seq<Step>, i: nat, id: nat)
    requires Run(ss, xs) && Loaded(ss[0]) && i < |ss|
    ensures var s := ss[i];
      One(id in s.sent) == InQueue(s.queue, id) + InLasts(s.lasts, id) + Parked(s.ctx, id) + Answers(s.ctx.log, id)
    ensures ss[i].phase.Gone? && ss[i].lasts == [] ==> Answers(ss[i].ctx.log, id) == One(id in ss[i].sent)
  {
    AlwaysInv(ss, xs, i, id);
    hide Run, Loaded, Answers;
  }

  /**
   While any program has the library open, its base is bound to the one stack
   task there is and that task is serving: an exiting task has no clients. And a
   parked ADD has its interface.
   */
  lemma {:induction false} NoClientOfExitingTask(ss: seq<Net>, xs: seq<Step>, i: nat, t: nat)
    requires Run(ss, xs) && Loaded(ss[0]) && i < |ss|
    ensures t in ss[i].openers ==> t == ss[i].task && ss[i].phase.Serving?
    ensures ss[i].ctx.adding.Some? ==> ss[i].ctx.created
  {
    AlwaysInv(ss, xs, i, 0);
    hide Run, Loaded, Accounted;
  }

  /**
   When an exiting task answers its SHUTDOWN with OK, it has no clients left:
   every opener there may be was admitted since it let go, by a later task. And
   nobody has the library open exactly when as many closed it since as opened it.
   */
  lemma {:induction false} OkReply(ss: seq<Net>, xs: seq<Step>, i: nat, k: nat)
    requires Run(ss, xs) && Loaded(ss[0]) && i < |xs| && xs[i] == LastReply(k)
    ensures k < |ss[i].lasts|
    ensures var s, last := ss[i], ss[i].lasts[k];
      && ss[i + 1].ctx.log == s.ctx.log + [Reply(last.msg, OK)]
      && (forall t :: t in s.openers ==> t > last.task)
      && last.opens == last.closes + |s.openers|
      && (s.openers == multiset{} <==> last.opens == last.closes)
  {
    assert Enabled(ss[i], xs[i]) && ss[i + 1] == Next(ss[i], xs[i]);
    AlwaysInv(ss, xs, i, 0);
    hide Run, Loaded, Accounted;
  }

  /** The letting go itself happens under openLock with no opener, and the test that led there saw none. */
  lemma {:induction false} LetGoIsEmpty(ss: seq<Net>, xs: seq<Step>, i: nat)
    requires Run(ss, xs) && Loaded(ss[0]) && i < |xs| && xs[i] == LetGo
    ensures ss[i].openers == multiset{} && ss[i].ctx.stopping.Some? && ss[i + 1].phase.Gone?
    ensures |ss[i + 1].lasts| == |ss[i].lasts| + 1
  {
    assert Enabled(ss[i], xs[i]) && ss[i + 1] == Next(ss[i], xs[i]);
    AlwaysInv(ss, xs, i, 0);
    hide Run, Loaded, Accounted;
  }

  /**
   The OK reply alone does not say that nobody has the library open: an
   OpenLibrary that runs between the two last acts starts a new task first.
   */
  lemma {:induction false} OkWithOpener(m: Msg, xs: seq<Step>) returns (ss: seq<Net>)
    requires m == Msg(7, VERSION, Shutdown)
    requires xs == [Open(true), Post(m), Serve(Env(0, false, false, false, 0)), Close(1), TestReady, Unpublish, TakeDown, LetGo, Open(true), LastReply(0)]
    ensures Run(ss, xs) && Loaded(ss[0])
    ensures ss[10].ctx.log == [Reply(7, OK)] && ss[9].openers == multiset{2} && ss[9].lasts == [Last(7, 1, 1, 0)]
  {
    var c, d := Ctx(None, None, false, false, []), Ctx(None, Some(7), false, true, []);
    var s0 := Net(c, [], 0, Gone, multiset{}, [], []);
    var s1 := Net(c, [], 1, Serving, multiset{1}, [], []);
    var s2 := Net(c, [m], 1, Serving, multiset{1}, [], [7]);
    var s3 := Net(d, [], 1, Serving, multiset{1}, [], [7]);
    var s4 := Net(d, [], 1, Serving, multiset{}, [], [7]);
    var s5 := s4.(phase := Quitting);
    var s6 := s5.(phase := Withdrawn);
    var s7 := s6.(phase := Down);
    var s8 := Net(c, [], 1, Gone, multiset{}, [Last(7, 1, 0, 0)], [7]);
    var s9 := Net(c, [], 2, Serving, multiset{2}, [Last(7, 1, 1, 0)], [7]);
    var s10 := Net(c.(log := [Reply(7, OK)]), [], 2, Serving, multiset{2}, [], [7]);
    ss := [s0, s1, s2, s3, s4, s5, s6, s7, s8, s9, s10];
    assert s1 == Next(s0, Open(true));
    assert s2 == Next(s1, Post(m));
    assert s3 == Next(s2, xs[2]);
    assert s4 == Next(s3, Close(1));
    assert s5 == Next(s4, TestReady);
    assert s6 == Next(s5, Unpublish);
    assert s7 == Next(s6, TakeDown);
    assert s8 == Next(s7, LetGo);
    assert s9 == Next(s8, Open(true));
    assert s10 == Next(s9, LastReply(0));
    hide Next, Enabled;
    assert Run(ss, xs);
  }

  // ---- traces ----

  const LOADED := Net(Ctx(None, None, false, false, []), [], 0, Gone, multiset{}, [], [])

  /** xs can be taken, step by step, from the library just loaded. */
  ghost predicate Legal(xs: seq<Step>)
    decreases |xs|, 0
  {
    xs == [] || (Legal(xs[..|xs| - 1]) && Enabled(After(xs[..|xs| - 1]), xs[|xs| - 1]))
  }

  ghost function After(xs: seq<Step>): Net
    requires Legal(xs)
    decreases |xs|, 1
  {
    if xs == [] then LOADED else Next(After(xs[..|xs| - 1]), xs[|xs| - 1])
  }

  /** The object is where its trace led. */
  ghost predicate At(xs: seq<Step>, s: Net) { Legal(xs) && After(xs) == s }

  lemma {:induction false} Took(xs: seq<Step>, s: Net, a: Step)
    requires At(xs, s) && Enabled(s, a)
    ensures At(xs + [a], Next(s, a))
  {
    hide Next, Enabled;
    assert (xs + [a])[..|xs|] == xs;
  }

  /** Every trace is a run, so that what holds in every run holds of the object. */
  lemma {:induction false} TraceIsRun(xs: seq<Step>, s: Net) returns (ss: seq<Net>)
    requires At(xs, s)
    ensures Run(ss, xs) && Loaded(ss[0]) && ss[|xs|] == s
    decreases |xs|
  {
    hide Next, Enabled;
    if xs == [] {
      ss := [LOADED];
    } else {
      var n := |xs| - 1;
      var init := TraceIsRun(xs[..n], After(xs[..n]));
      ss := init + [s];
      forall i | 0 <= i < |xs| ensures Enabled(ss[i], xs[i]) && ss[i + 1] == Next(ss[i], xs[i]) {
        if i < n {
          assert xs[..n][i] == xs[i];
        }
      }
    }
  }

  lemma {:induction false} TraceOrdered(xs: seq<Step>, s: Net)
    requires At(xs, s)
    ensures Ordered(s)
  {
    hide At, Ordered;
    var ss := TraceIsRun(xs, s);
    AlwaysInv(ss, xs, |xs|, 0);
  }

  // ---- the object ----

  function Serves(es: seq<Env>): (xs: seq<Step>)
    ensures |xs| == |es| && forall i :: 0 <= i < |es| ==> xs[i] == Serve(es[i])
  {
    seq(|es|, i requires 0 <= i < |es| => Serve(es[i]))
  }

  function Refusals(n: nat): (xs: seq<Step>)
    ensures |xs| == n && forall i :: 0 <= i < n ==> xs[i] == AnswerOne
  {
    seq(n, _ => AnswerOne)
  }

  /**
   The root's openLock fields and struct SbStackCtx. Every method is a run of
   the steps above: trace records them, and the object is where they lead.
   */
  class StackTask {
    var adding: Option<Msg>
    var stopping: Option<nat>
    var created: bool
    var shuttingDown: bool
    var openCount: nat
    var task: nat
    var alive: bool
    var port: seq<Msg>
    ghost var log: seq<Reply>
    ghost var phase: Phase
    ghost var openers: multiset<nat>
    ghost var lasts: seq<Last>
    ghost var sent: seq<nat>
    ghost var trace: seq<Step>

    ghost function View(): Ctx
      reads this
    {
      Ctx(adding, stopping, created, shuttingDown, log)
    }

    ghost function Whole(): Net
      reads this
    {
      Net(View(), port, task, phase, openers, lasts, sent)
    }

    ghost predicate Valid()
      reads this
    {
      At(trace, Whole()) && openCount == |openers| && (alive <==> !phase.Gone?)
    }

    constructor ()
      ensures Valid() && trace == []
    {
      adding, stopping, created, shuttingDown, openCount, port, log := None, None, false, false, 0, [], [];
      task, alive := 0, false;
      phase, openers, lasts, sent, trace := Gone, multiset{}, [], [], [];
    }

    /** What every run keeps, of the object: each message in one place, answered at most once. */
    lemma {:induction false} Kept(id: nat)
      requires Valid()
      ensures Ordered(Whole())
      ensures One(id in sent) == InQueue(port, id) + InLasts(lasts, id) + Parked(View(), id) + Answers(log, id)
    {
      hide At;
      var ss := TraceIsRun(trace, Whole());
      AnsweredOnce(ss, trace, |trace|, id);
      TraceOrdered(trace, Whole());
    }

    /** A client's PutMsg. */
    method PutMsg(m: Msg)
      requires Valid() && (phase.Serving? || phase.Quitting?) && m.id !in sent
      modifies `port, `sent, `trace
      ensures Valid() && trace == old(trace) + [Post(m)]
    {
      hide At;
      Took(trace, Whole(), Post(m));
      port, sent, trace := port + [m], sent + [m.id], trace + [Post(m)];
    }

    method ReplyMsg(id: nat, code: int)
      modifies `log
      ensures View() == Say(old(View()), id, code)
    {
      log := log + [Reply(id, code)];
    }

    method TryCompleteAdd(e: Env) returns (done: bool)
      modifies `log, `adding
      ensures View() == TryComplete(old(View()), e) && done == (old(adding).Some? && Operational(old(adding).value, e))
    {
      if adding.None? {
        return false;
      }
      var ready := if adding.value.op.AddIf? && adding.value.op.cfg.dhcp then e.lease else e.link;
      if !ready {
        return false;
      }
      ReplyMsg(adding.value.id, OK);
      adding := None;
      return true;
    }

    /** sb_netctl_add: None means parked. */
    method AddInterface(m: Msg, e: Env) returns (res: Option<int>)
      requires m.op.AddIf?
      modifies `log, `adding, `created
      ensures Add(old(View()), m, e) == if res.Some? then Say(View(), m.id, res.value) else View()
    {
      if stopping.Some? {
        return Some(ERR_INACTIVE);
      }
      if created || adding.Some? {
        return Some(ERR_EXISTS);
      }
      if !ParamOk(m.op.cfg) {
        return Some(ERR_PARAM);
      }
      if e.up != OK {
        return Some(e.up);
      }
      created := true;
      adding := Some(m);
      var _ := TryCompleteAdd(e);
      return None;
    }

    method CancelAddInterface(e: Env, ghost m: Msg) returns (res: int)
      modifies `log, `adding
      ensures Cancel(old(View()), m, e) == Say(View(), m.id, res)
    {
      if adding.None? {
        return ERR_NOTFOUND;
      }
      var done := TryCompleteAdd(e);
      if done {
        return ERR_NOTFOUND;
      }
      ReplyMsg(adding.value.id, ERR_PENDING);
      adding := None;
      return OK;
    }

    method RemoveInterface(m: Msg, e: Env) returns (res: int)
      requires m.op.RemIf?
      modifies `log, `adding, `created
      ensures Remove(old(View()), m, e) == Say(View(), m.id, res)
    {
      if stopping.Some? {
        return ERR_INACTIVE;
      }
      if !m.op.named {
        return ERR_PARAM;
      }
      if !(created && e.found) {
        return ERR_NOTFOUND;
      }
      if !m.op.force && e.bound > 0 {
        return ERR_BUSY;
      }
      if adding.Some? {
        ReplyMsg(adding.value.id, ERR_INACTIVE);
        adding := None;
      }
      created := false;
      return OK;
    }

    method RequestShutdown(m: Msg) returns (res: Option<int>)
      modifies `shuttingDown, `stopping
      ensures Stop(old(View()), m) == if res.Some? then Say(View(), m.id, res.value) else View()
    {
      if stopping.Some? {
        return Some(ERR_EXISTS);
      }
      shuttingDown := true;
      stopping := Some(m.id);
      return None;
    }

    method RecallShutdown(ghost m: Msg) returns (res: int)
      modifies `shuttingDown, `stopping, `log
      ensures CancelStop(old(View()), m) == Say(View(), m.id, res)
    {
      if stopping.None? {
        return ERR_NOTFOUND;
      }
      shuttingDown := false;
      ReplyMsg(stopping.value, ERR_ABORTED);
      stopping := None;
      return OK;
    }

    /** One turn of sb_netctl_service: handle, then answer unless the message was parked. */
    method Dispatch(m: Msg, e: Env)
      modifies `log, `adding, `created, `shuttingDown, `stopping
      ensures View() == Handle(old(View()), m, e)
    {
      hide Add, Cancel, Remove, Stop, CancelStop;
      var res := Some(ERR_OP);
      if m.version != VERSION {
        res := Some(ERR_VERSION);
      } else {
        match m.op
        case AddIf(_) => res := AddInterface(m, e);
        case CancelAdd =>
          var r := CancelAddInterface(e, m);
          res := Some(r);
        case RemIf(_, _) =>
          var r := RemoveInterface(m, e);
          res := Some(r);
        case Shutdown => res := RequestShutdown(m);
        case CancelShutdown =>
          var r := RecallShutdown(m);
          res := Some(r);
        case Other =>
      }
      if res.Some? {
        ReplyMsg(m.id, res.value);
      }
    }

    /** sb_netctl_service: the port is emptied in order, one Serve step a message. */
    method Service() returns (ghost es: seq<Env>)
      requires Valid() && phase.Serving?
      modifies `log, `adding, `created, `shuttingDown, `stopping, `port, `trace
      ensures Valid() && port == [] && |es| == |old(port)| && trace == old(trace) + Serves(es)
    {
      hide At, Handle;
      es := [];
      assert old(trace) + Serves([]) == old(trace);
      while port != []
        invariant Valid() && |es| + |port| == |old(port)| && trace == old(trace) + Serves(es)
        decreases |port|
      {
        var m := port[0];
        var e: Env := *;
        Took(trace, Whole(), Serve(e));
        port := port[1..];
        Dispatch(m, e);
        assert old(trace) + Serves(es) + [Serve(e)] == old(trace) + Serves(es + [e]);
        trace, es := trace + [Serve(e)], es + [e];
      }
    }

    /** The poll of the main loop: a parked ADD that became operational is answered. */
    method Poll(e: Env)
      requires Valid() && phase.Serving?
      modifies `log, `adding, `trace
      ensures Valid() && trace == old(trace) + [Tick(e)]
    {
      hide At, TryComplete;
      Took(trace, Whole(), Tick(e));
      var _ := TryCompleteAdd(e);
      trace := trace + [Tick(e)];
    }

    /** sb_netctl_shutdown_ready: once it says so nobody has the library open, and nobody can. */
    method ShutdownReady() returns (ready: bool)
      requires Valid() && phase.Serving?
      modifies `phase, `trace
      ensures Valid() && trace == old(trace) + [TestReady]
      ensures ready == (stopping.Some? && openCount == 0) && (ready ==> phase.Quitting? && shuttingDown && openers == multiset{})
    {
      TraceOrdered(trace, Whole());
      hide At;
      Took(trace, Whole(), TestReady);
      ready := stopping.Some? && openCount == 0;
      trace := trace + [TestReady];
      if ready {
        phase := Quitting;
      }
    }

    /** sb_netctl_stop: the port withdrawn, the parked ADD answered, then everything still queued. */
    method StopPort()
      requires Valid() && phase.Quitting?
      modifies `log, `adding, `port, `phase, `trace
      ensures Valid() && phase.Withdrawn? && port == [] && adding.None?
      ensures trace == old(trace) + [Unpublish] + Refusals(|old(port)|)
    {
      hide At;
      Took(trace, Whole(), Unpublish);
      if adding.Some? {
        ReplyMsg(adding.value.id, ERR_INACTIVE);
        adding := None;
      }
      phase, trace := Withdrawn, trace + [Unpublish];
      RefuseQueued();
    }

    method RefuseQueued()
      requires Valid() && phase.Withdrawn?
      modifies `log, `port, `trace
      ensures Valid() && port == [] && trace == old(trace) + Refusals(|old(port)|)
    {
      hide At;
      ghost var n := 0;
      assert trace + Refusals(0) == trace;
      while port != []
        invariant Valid() && n + |port| == |old(port)| && trace == old(trace) + Refusals(n)
        decreases |port|
      {
        Took(trace, Whole(), AnswerOne);
        ReplyMsg(port[0].id, ERR_INACTIVE);
        port := port[1..];
        assert trace + [AnswerOne] == old(trace) + Refusals(n + 1);
        trace, n := trace + [AnswerOne], n + 1;
      }
    }

    method TakeDownInterface()
      requires Valid() && phase.Withdrawn? && port == []
      modifies `created, `phase, `trace
      ensures Valid() && phase.Down? && trace == old(trace) + [TakeDown]
    {
      hide At;
      Took(trace, Whole(), TakeDown);
      created, phase, trace := false, Down, trace + [TakeDown];
    }

    /** The exit under openLock: an open sees a shutdown in progress or no task, never a task on its way out. */
    method LetTaskGo() returns (owed: Option<nat>)
      requires Valid() && phase.Down?
      modifies `stopping, `shuttingDown, `alive, `phase, `lasts, `trace
      ensures Valid() && !alive && !shuttingDown && trace == old(trace) + [LetGo]
      ensures owed.Some? && owed == old(stopping) && openCount == 0
      ensures lasts == old(lasts) + [Last(owed.value, task, 0, 0)]
    {
      TraceOrdered(trace, Whole());
      hide At;
      Took(trace, Whole(), LetGo);
      owed := stopping;
      lasts := lasts + [Last(stopping.value, task, 0, 0)];
      stopping := None;
      alive, shuttingDown, phase := false, false, Gone;
      trace := trace + [LetGo];
    }

    /** The reply to the SHUTDOWN, after the lock: by now a new task may be serving. */
    method ReplyLast(ghost k: nat, id: nat)
      requires Valid() && k < |lasts| && lasts[k].msg == id
      modifies `log, `lasts, `trace
      ensures Valid() && trace == old(trace) + [LastReply(k)] && log == old(log) + [Reply(id, OK)]
      ensures openCount == 0 <==> old(lasts)[k].opens == old(lasts)[k].closes
    {
      TraceOrdered(trace, Whole());
      hide At;
      Took(trace, Whole(), LastReply(k));
      ReplyMsg(id, OK);
      lasts := lasts[..k] + lasts[k + 1..];
      trace := trace + [LastReply(k)];
    }

    /** LibOpen: start and mem say whether a needed stack task and the opener's memory could be had. */
    method LibOpen(start: bool, mem: bool) returns (bound: Option<nat>)
      requires Valid()
      modifies this
      ensures Valid() && (bound.Some? <==> !old(shuttingDown) && (old(alive) || start) && mem)
      ensures bound.Some? ==> bound.value == task && phase.Serving? && !shuttingDown
      ensures trace == if !old(shuttingDown) && (old(alive) || start) then old(trace) + [Open(mem)] else old(trace)
    {
      TraceOrdered(trace, Whole());
      assert alive && !shuttingDown ==> phase.Serving?;
      hide At, Ordered;
      if shuttingDown {
        return None;
      }
      if !alive {
        if !start {
          return None;
        }
        StartTask(mem);
      } else {
        Admit(mem);
      }
      return if mem then Some(task) else None;
    }

    /** The first open: a stack task with a fresh context. */
    method StartTask(mem: bool)
      requires Valid() && !alive && !shuttingDown
      modifies `adding, `stopping, `created, `task, `alive, `phase, `lasts, `trace, `openCount, `openers
      ensures Valid() && alive && !shuttingDown && phase.Serving? && trace == old(trace) + [Open(mem)]
    {
      hide At, Opened;
      Took(trace, Whole(), Open(mem));
      FreshTask(mem);
      trace := trace + [Open(mem)];
    }

    method FreshTask(mem: bool)
      requires phase.Gone? && !shuttingDown && openCount == |openers|
      modifies `adding, `stopping, `created, `task, `alive, `phase, `lasts, `openCount, `openers
      ensures Whole() == Opened(old(Whole()), mem) && openCount == |openers| && alive && phase.Serving?
    {
      hide Noted;
      ResetContext();
      hide Handle;
      task, alive, phase := task + 1, true, Serving;
      Enlist(mem);
      assert Whole() == Opened(old(Whole()), mem);
    }

    method ResetContext()
      modifies `adding, `stopping, `created
      ensures View() == Ctx(None, None, false, shuttingDown, log)
    {
      adding, stopping, created := None, None, false;
    }

    /** The opener, if it got its memory, counted by the base and by every task that still owes a reply. */
    method Enlist(mem: bool)
      requires openCount == |openers|
      modifies `lasts, `openCount, `openers
      ensures lasts == Noted(old(lasts), One(mem), 0) && openCount == |openers|
      ensures openers == if mem then old(openers) + multiset{task} else old(openers)
    {
      lasts := Noted(lasts, One(mem), 0);
      if mem {
        openCount, openers := openCount + 1, openers + multiset{task};
      }
    }

    method Admit(mem: bool)
      requires Valid() && alive && !shuttingDown
      modifies `openCount, `openers, `lasts, `trace
      ensures Valid() && trace == old(trace) + [Open(mem)]
    {
      hide At;
      Took(trace, Whole(), Open(mem));
      trace := trace + [Open(mem)];
      if mem {
        openCount, openers, lasts := openCount + 1, openers + multiset{task}, Noted(lasts, 1, 0);
      }
    }

    /** LibClose: the last client of a pending shutdown wakes the stack task. */
    method LibClose() returns (wake: bool)
      requires Valid() && openCount > 0
      modifies `openCount, `openers, `lasts, `trace
      ensures Valid() && trace == old(trace) + [Close(task)]
      ensures wake == (shuttingDown && openCount == 0)
    {
      TraceOrdered(trace, Whole());
      hide At;
      assert exists t :: t in openers;
      Took(trace, Whole(), Close(task));
      openCount, openers := openCount - 1, openers - multiset{task};
      lasts, trace := Noted(lasts, 0, 1), trace + [Close(task)];
      wake := shuttingDown && openCount == 0 && alive;
    }
  }
}
