/**
 * The methods of `Processor` (paxos_asyncio/message.py's `MessageMixin` and
 * paxos_asyncio/participants.py), run against the coordinator's registry:
 * sending, draining the mailbox, the three handlers, proposing, and the run loops.
 * Each processor is named by its id; its fields live in `c.processors[id]`.
 */
module Actors {
  import opened Wrappers
  import opened Messages
  import opened ProcessGenerator
  import opened Participants
  import opened Coordinator

  /* ---------------------------------------------------------------- specifications */

  /** A handler's effect on the registry: first its field updates on `self`, then its sends. */
  ghost function AfterReaction(n: Net, self: Id, r: Reaction<Role>): Outcome
    requires self < |n.procs|
  {
    var n1 := n.(procs := n.procs[self := n.procs[self].(role := r.state)]);
    if r.err.Some? then Outcome(n1, r.err) else SendAll(n1, r.outbox)
  }

  /**
   * One iteration of `process_mailbox`'s loop: pop the oldest letter, assert it is
   * addressed to this processor, look its handler up by message type in the shared
   * table and run it on this processor with the letter's sender.
   */
  ghost function MailboxStep(n: Net, self: Id): (o: Outcome)
    requires self < |n.procs| && n.procs[self].mailbox != []
    ensures |o.net.procs| == |n.procs|
    ensures forall j :: 0 <= j < |n.procs| ==> o.net.procs[j].alive == n.procs[j].alive
    ensures forall j :: 0 <= j < |n.procs| && j != self ==> o.net.procs[j].role == n.procs[j].role
    ensures GenOf(o.net.procs[self].role) == GenOf(n.procs[self].role)
    ensures o.net.procs[self].role.AcceptorRole? == n.procs[self].role.AcceptorRole?
    ensures o.net.procs[self].role.ProposerRole? == n.procs[self].role.ProposerRole?
    ensures o.err.None? ==> n.procs[self].mailbox[1..] <= o.net.procs[self].mailbox
    ensures n.procs[self].mailbox[0].to != self ==> o.err == Some(AssertionError("letter.to == self.id"))
    ensures var l := n.procs[self].mailbox[0];
            l.to == self && Dispatch(SharedTable(), TypeOf(l.message)).None? ==>
              o.err == Some(NoHandler(TypeName(TypeOf(l.message)), ClassName(n.procs[self].role), l.frm))
    ensures o.err.Some? ==> !o.err.value.NoHandler?
  {
    var p := n.procs[self];
    var l := p.mailbox[0];
    var n1 := n.(procs := n.procs[self := p.(mailbox := p.mailbox[1..])]);
    if l.to != self then
      Outcome(n1, Some(AssertionError("letter.to == self.id")))
    else
      match Dispatch(SharedTable(), TypeOf(l.message))
      case None => Outcome(n1, Some(CatchAll(l.message, ClassName(p.role), l.frm)))
      case Some(h) => AfterReaction(n1, self, React(h, p.role, self, l.message, l.frm))
  }

  /** Measure of the letters still to handle: Prepares first, then Promises, then all letters. */
  predicate LexBelow(a: seq<Letter>, b: seq<Letter>) {
    || CountType(a, PrepareType) < CountType(b, PrepareType)
    || (CountType(a, PrepareType) == CountType(b, PrepareType)
        && (|| CountType(a, PromiseType) < CountType(b, PromiseType)
            || (CountType(a, PromiseType) == CountType(b, PromiseType) && |a| < |b|)))
  }

  /**
   * Every handled letter shrinks the mailbox in the lexicographic order of
   * (Prepares, Promises, letters): a Prepare may only bring a Promise back, a
   * Promise only Accepts, and an Accept nothing, so draining terminates even when
   * a processor writes to itself.
   */
  lemma MailboxStepShrinks(n: Net, self: Id)
    requires self < |n.procs| && n.procs[self].mailbox != []
    requires MailboxStep(n, self).err.None?
    ensures LexBelow(MailboxStep(n, self).net.procs[self].mailbox, n.procs[self].mailbox)
  {
    var p := n.procs[self];
    var l := p.mailbox[0];
    var rest := p.mailbox[1..];
    var n1 := n.(procs := n.procs[self := p.(mailbox := rest)]);
    var h := Dispatch(SharedTable(), TypeOf(l.message)).value;
    var r := React(h, p.role, self, l.message, l.frm);
    var n2 := n1.(procs := n1.procs[self := n1.procs[self].(role := r.state)]);
    assert n2.procs[self].mailbox == rest;
    var after := SendAll(n2, r.outbox).net.procs[self].mailbox;
    assert after == MailboxStep(n, self).net.procs[self].mailbox;
    SendAllCounts(n2, r.outbox, self, PrepareType);
    SendAllCounts(n2, r.outbox, self, PromiseType);
    assert p.mailbox == [l] + rest;
    if h == HandleAcceptMessage {
      assert r.outbox == [];
      assert after == rest;
    }
  }

  /** `process_mailbox` steps `trace[0]`, `trace[1]`, ... without error, popping `handled[i]` at step `i`. */
  ghost predicate Drained(trace: seq<Net>, handled: seq<Letter>, self: Id) {
    && |trace| == |handled| + 1
    && forall i :: 0 <= i < |handled| ==>
         && self < |trace[i].procs| && trace[i].procs[self].mailbox != []
         && handled[i] == trace[i].procs[self].mailbox[0]
         && MailboxStep(trace[i], self) == Outcome(trace[i + 1], None)
  }

  /**
   * `process_mailbox` started in `n` ends in `o`: it popped `handled` through the states
   * `trace`, then either found the mailbox empty or raised on the next letter.
   */
  ghost predicate Drains(n: Net, self: Id, trace: seq<Net>, handled: seq<Letter>, o: Outcome) {
    && trace != [] && trace[0] == n && Drained(trace, handled, self)
    && var last := trace[|trace| - 1];
       && self < |last.procs|
       && (o.err.None? ==> o.net == last && last.procs[self].mailbox == [])
       && (o.err.Some? ==> last.procs[self].mailbox != [] && MailboxStep(last, self) == o)
  }

  /**
   * `process_mailbox` as a function of the state it starts in: handle letters one by one
   * until the mailbox is empty or a step raises. It terminates by `MailboxStepShrinks`.
   */
  ghost function DrainAll(n: Net, self: Id): Outcome
    requires self < |n.procs|
    decreases CountType(n.procs[self].mailbox, PrepareType), CountType(n.procs[self].mailbox, PromiseType),
              |n.procs[self].mailbox|
  {
    if n.procs[self].mailbox == [] then
      Outcome(n, None)
    else
      var o := MailboxStep(n, self);
      if o.err.Some? then
        o
      else
        MailboxStepShrinks(n, self);
        DrainAll(o.net, self)
  }

  /* ---------------------------------------------------------------- sending */

  lemma SendOne(n: Net, l: Letter)
    ensures SendAll(n, [l]) == Deliver(n, l)
  {
    assert [l][1..] == [];
  }

  /** `send_message_to`: exactly one letter from `self` to `other` carrying `m` unchanged, handed to `send_letter`. */
  method SendMessageTo(c: Coordinator, self: Id, other: Id, m: Message) returns (err: Option<Error>)
    modifies c
    ensures Outcome(c.State(), err) == Deliver(old(c.State()), Letter(self, other, m))
    ensures c.deathDraws == old(c.deathDraws)
  {
    var letter := Letter(self, other, m);
    err := c.SendLetter(letter);
  }

  /** `for a in targets: await self.send_message_to(a, m)`. */
  method SendToAll(c: Coordinator, self: Id, targets: seq<Id>, m: Message) returns (err: Option<Error>)
    modifies c
    ensures Outcome(c.State(), err) == SendAll(old(c.State()), LettersTo(self, targets, m))
    ensures c.deathDraws == old(c.deathDraws)
  {
    var i := 0;
    while i < |targets|
      invariant 0 <= i <= |targets|
      invariant c.deathDraws == old(c.deathDraws)
      invariant SendAll(old(c.State()), LettersTo(self, targets, m)) == SendAll(c.State(), LettersTo(self, targets[i..], m))
    {
      assert targets[i..][1..] == targets[i + 1..];
      ghost var before := c.State();
      err := SendMessageTo(c, self, targets[i], m);
      if err.Some? {
        return;
      }
      i := i + 1;
    }
    assert targets[i..] == [];
    err := None;
  }

  /* ---------------------------------------------------------------- handlers */

  /** `Acceptor._handle_prepare_message`, run on whatever processor `self` is. */
  method HandlePrepare(c: Coordinator, self: Id, m: Message, frm: Id) returns (err: Option<Error>)
    requires self < |c.processors| && TypeOf(m) == PrepareType
    modifies c
    ensures Outcome(c.State(), err) ==
              AfterReaction(old(c.State()), self, React(HandlePrepareMessage, old(c.processors[self].role), self, m, frm))
    ensures c.deathDraws == old(c.deathDraws)
  {
    var p := c.processors[self];
    match p.role
    case AcceptorRole(a) =>
      var number := m.number;
      if a.highestNumberSeen.None? || a.highestNumberSeen.value < number {
        c.processors := c.processors[self := p.(role := AcceptorRole(a.(highestNumberSeen := Some(number))))];
        var response := PromiseMessage(number, a.acceptedNumber, a.acceptedValue);
        SendOne(c.State(), Letter(self, frm, response));
        err := SendMessageTo(c, self, frm, response);
      } else {
        // no denial is sent
        assert p.(role := p.role) == p;
        err := None;
      }
    case _ =>
      assert p.(role := p.role) == p;
      err := Some(AttributeError(ClassName(p.role), "highest_number_seen"));
  }

  /** `Acceptor._handle_accept_message`, run on whatever processor `self` is. */
  method HandleAccept(c: Coordinator, self: Id, m: Message, frm: Id) returns (err: Option<Error>)
    requires self < |c.processors| && TypeOf(m) == AcceptType
    modifies c
    ensures Outcome(c.State(), err) ==
              AfterReaction(old(c.State()), self, React(HandleAcceptMessage, old(c.processors[self].role), self, m, frm))
    ensures c.deathDraws == old(c.deathDraws)
  {
    var p := c.processors[self];
    match p.role
    case AcceptorRole(a) =>
      if Some(m.number) == a.highestNumberSeen {
        c.processors := c.processors[self := p.(role := AcceptorRole(a.(acceptedNumber := Some(m.number), acceptedValue := Some(m.proposal))))];
      } else {
        assert p.(role := p.role) == p;
      }
      err := None;
    case _ =>
      assert p.(role := p.role) == p;
      err := Some(AttributeError(ClassName(p.role), "highest_number_seen"));
  }

  /** A promise that reports a previously accepted value. */
  predicate Valued(m: Message) {
    m.PromiseMessage? && m.prevAccValue.Some?
  }

  /**
   * The rule "largest previously accepted value, else the own proposal" read off the
   * stored messages alone: the sender ids do not matter.
   */
  lemma ChosenOfValues(promises: map<Id, Message>, default: Option<int>, best: Option<int>)
    requires best.None? ==> forall m :: m in promises.Values ==> !Valued(m)
    requires best.Some? ==> exists m :: m in promises.Values && Valued(m) && m.prevAccValue == best
    requires best.Some? ==> forall m :: m in promises.Values && Valued(m) ==> m.prevAccValue.value <= best.value
    ensures Chosen(promises, default) == if best.Some? then best else default
  {
    forall y | y in PrevValues(promises)
      ensures best.Some? && y <= best.value
    {
      var k :| k in promises && Valued(promises[k]) && promises[k].prevAccValue.value == y;
      assert promises[k] in promises.Values;
    }
    if best.Some? {
      var m :| m in promises.Values && Valued(m) && m.prevAccValue == best;
      var k :| k in promises && promises[k] == m;
      assert best.value in PrevValues(promises);
    }
  }

  /** The `max(..., default=self.proposal)` generator expression, as a loop over the stored promises. */
  method MaxPrevAcceptedValue(promises: map<Id, Message>, default: Option<int>) returns (v: Option<int>)
    ensures v == Chosen(promises, default)
  {
    var todo := promises.Values;
    var best: Option<int> := None;
    ghost var done: set<Message> := {};
    ghost var from: Message := PrepareMessage(0);
    while todo != {}
      invariant todo + done == promises.Values
      invariant best.None? ==> forall m :: m in done ==> !Valued(m)
      invariant best.Some? ==> from in done && Valued(from) && from.prevAccValue == best
      invariant best.Some? ==> forall m :: m in done && Valued(m) ==> m.prevAccValue.value <= best.value
      decreases |todo|
    {
      var m :| m in todo;
      if Valued(m) {
        if best.None? || best.value < m.prevAccValue.value {
          best := m.prevAccValue;
          from := m;
        }
      }
      todo := todo - {m};
      done := done + {m};
    }
    assert best.Some? ==> from in promises.Values;
    ChosenOfValues(promises, default, best);
    v := if best.Some? then best else default;
  }

  /** `Proposer._handle_promise_message`, run on whatever processor `self` is. */
  method HandlePromise(c: Coordinator, self: Id, m: Message, frm: Id) returns (err: Option<Error>)
    requires self < |c.processors| && TypeOf(m) == PromiseType
    modifies c
    ensures Outcome(c.State(), err) ==
              AfterReaction(old(c.State()), self, React(HandlePromiseMessage, old(c.processors[self].role), self, m, frm))
    ensures c.deathDraws == old(c.deathDraws)
  {
    var p := c.processors[self];
    match p.role
    case ProposerRole(pr) =>
      ghost var r := OnPromise(pr, self, frm, m);
      assert React(HandlePromiseMessage, p.role, self, m, frm) == AsRole(r);
      var promises := pr.promises[frm := m];
      var pr1 := pr.(promises := promises);
      c.processors := c.processors[self := p.(role := ProposerRole(pr1))];
      if pr1.acceptors.None? {
        assert r == Reaction(pr1, [], Some(AssertionError("self.acceptors is not None")));
        return Some(AssertionError("self.acceptors is not None"));
      }
      var acceptors := pr1.acceptors.value;
      if |promises| == Threshold(|acceptors|) {
        var v := MaxPrevAcceptedValue(promises, pr1.proposal);
        var pr2 := pr1.(v := v);
        c.processors := c.processors[self := p.(role := ProposerRole(pr2))];
        if pr2.number.None? {
          assert r == Reaction(pr2, [], Some(AssertionError("self.number is not None")));
          return Some(AssertionError("self.number is not None"));
        }
        if v.None? {
          assert r == Reaction(pr2, [], Some(AssertionError("self.v is not None")));
          return Some(AssertionError("self.v is not None"));
        }
        var accept := AcceptMessage(pr2.number.value, v.value);
        assert r == Reaction(pr2, LettersTo(self, acceptors, accept), None);
        assert c.State() == old(c.State()).(procs := old(c.processors)[self := p.(role := ProposerRole(pr2))]);
        err := SendToAll(c, self, acceptors, accept);
      } else {
        assert r == Reaction(pr1, [], None);
        assert c.State() == old(c.State()).(procs := old(c.processors)[self := p.(role := ProposerRole(pr1))]);
        assert SendAll(c.State(), []) == Outcome(c.State(), None);
        err := None;
      }
    case _ =>
      assert p.(role := p.role) == p;
      err := Some(AttributeError(ClassName(p.role), "promises"));
  }

  /* ---------------------------------------------------------------- the mailbox */

  /** One iteration of `process_mailbox`'s loop. */
  method HandleOldest(c: Coordinator, self: Id) returns (err: Option<Error>)
    requires self < |c.processors| && c.processors[self].mailbox != []
    modifies c
    ensures Outcome(c.State(), err) == MailboxStep(old(c.State()), self)
    ensures c.deathDraws == old(c.deathDraws)
  {
    var p := c.processors[self];
    var letter := p.mailbox[0];
    c.processors := c.processors[self := p.(mailbox := p.mailbox[1..])];
    if letter.to != self {
      return Some(AssertionError("letter.to == self.id"));
    }
    var fn := Dispatch(SharedTable(), TypeOf(letter.message));
    match fn
    case None =>
      err := Some(CatchAll(letter.message, ClassName(p.role), letter.frm));
    case Some(h) =>
      match h
      case HandlePrepareMessage =>
        err := HandlePrepare(c, self, letter.message, letter.frm);
      case HandleAcceptMessage =>
        err := HandleAccept(c, self, letter.message, letter.frm);
      case HandlePromiseMessage =>
        err := HandlePromise(c, self, letter.message, letter.frm);
  }

  /**
   * `process_mailbox`: pop and handle the oldest letter until the mailbox is empty,
   * including letters that arrive while it drains; an error stops it. `trace` holds
   * the registry before each handled letter and `handled` the letters in the order popped.
   */
  method ProcessMailbox(c: Coordinator, self: Id) returns (err: Option<Error>, ghost trace: seq<Net>, ghost handled: seq<Letter>)
    requires self < |c.processors|
    modifies c
    ensures |c.processors| == |old(c.processors)|
    ensures forall j :: 0 <= j < |c.processors| ==> c.processors[j].alive == old(c.processors[j].alive)
    ensures GenOf(c.processors[self].role) == GenOf(old(c.processors[self].role))
    ensures c.processors[self].role.AcceptorRole? == old(c.processors[self].role.AcceptorRole?)
    ensures c.processors[self].role.ProposerRole? == old(c.processors[self].role.ProposerRole?)
    ensures Drains(old(c.State()), self, trace, handled, Outcome(c.State(), err))
    ensures Outcome(c.State(), err) == DrainAll(old(c.State()), self)
    ensures err.None? ==> old(c.processors[self].mailbox) <= handled
    ensures c.deathDraws == old(c.deathDraws)
  {
    ghost var n0 := c.State();
    trace, handled := [n0], [];
    err := None;
    assert handled + c.processors[self].mailbox == c.processors[self].mailbox;
    while |c.processors[self].mailbox| > 0
      invariant self < |c.processors|
      invariant DrainInv(n0, self, trace, handled, c.State())
      invariant err.None?
      invariant c.deathDraws == old(c.deathDraws)
      decreases CountType(c.processors[self].mailbox, PrepareType),
                CountType(c.processors[self].mailbox, PromiseType),
                |c.processors[self].mailbox|
    {
      ghost var before := c.State();
      err := HandleOldest(c, self);
      if err.Some? {
        DrainInvRaises(n0, self, trace, handled, before, Outcome(c.State(), err));
        return;
      }
      DrainInvStep(n0, self, trace, handled, before, c.State());
      handled := handled + [before.procs[self].mailbox[0]];
      trace := trace + [c.State()];
    }
    DrainInvDone(n0, self, trace, handled, c.State());
  }

  /** What `process_mailbox` keeps true between letters, started in `n0` and now in `n`. */
  ghost predicate DrainInv(n0: Net, self: Id, trace: seq<Net>, handled: seq<Letter>, n: Net) {
    && self < |n0.procs|
    && trace != [] && trace[0] == n0 && trace[|trace| - 1] == n
    && Drained(trace, handled, self)
    && SameShape(n0.procs, n.procs, self)
    && n0.procs[self].mailbox <= handled + n.procs[self].mailbox
    && DrainAll(n, self) == DrainAll(n0, self)
  }

  /** Handling one more letter without error keeps `DrainInv`, on a smaller mailbox. */
  lemma DrainInvStep(n0: Net, self: Id, trace: seq<Net>, handled: seq<Letter>, before: Net, after: Net)
    requires DrainInv(n0, self, trace, handled, before) && before.procs[self].mailbox != []
    requires MailboxStep(before, self) == Outcome(after, None)
    ensures DrainInv(n0, self, trace + [after], handled + [before.procs[self].mailbox[0]], after)
    ensures LexBelow(after.procs[self].mailbox, before.procs[self].mailbox)
  {
    DrainContinues(before, self, after);
    PrefixAfterPop(n0.procs[self].mailbox, handled, before.procs[self].mailbox, after.procs[self].mailbox);
    DrainedExtend(trace, handled, self, after);
    SameShapeStep(n0.procs, before.procs, after.procs, self);
  }

  /** A letter that raises ends the drain with that error. */
  lemma DrainInvRaises(n0: Net, self: Id, trace: seq<Net>, handled: seq<Letter>, before: Net, o: Outcome)
    requires DrainInv(n0, self, trace, handled, before) && before.procs[self].mailbox != []
    requires MailboxStep(before, self) == o && o.err.Some?
    ensures Drains(n0, self, trace, handled, o)
    ensures o == DrainAll(n0, self)
    ensures SameShape(n0.procs, o.net.procs, self)
  {
    SameShapeStep(n0.procs, before.procs, o.net.procs, self);
  }

  /** An empty mailbox ends the drain without error, every original letter handled. */
  lemma DrainInvDone(n0: Net, self: Id, trace: seq<Net>, handled: seq<Letter>, n: Net)
    requires DrainInv(n0, self, trace, handled, n) && n.procs[self].mailbox == []
    ensures Drains(n0, self, trace, handled, Outcome(n, None))
    ensures Outcome(n, None) == DrainAll(n0, self)
    ensures n0.procs[self].mailbox <= handled
  {
    assert handled + n.procs[self].mailbox == handled;
  }

  /** Handling letters keeps the registry's length, every `alive` flag and `self`'s kind of role and generator. */
  ghost predicate SameShape(before: seq<Proc>, after: seq<Proc>, self: Id) {
    && |after| == |before| && self < |before|
    && (forall j :: 0 <= j < |before| ==> after[j].alive == before[j].alive)
    && GenOf(after[self].role) == GenOf(before[self].role)
    && after[self].role.AcceptorRole? == before[self].role.AcceptorRole?
    && after[self].role.ProposerRole? == before[self].role.ProposerRole?
  }

  lemma SameShapeStep(ps: seq<Proc>, qs: seq<Proc>, rs: seq<Proc>, self: Id)
    requires SameShape(ps, qs, self)
    requires |rs| == |qs|
    requires forall j :: 0 <= j < |qs| ==> rs[j].alive == qs[j].alive
    requires GenOf(rs[self].role) == GenOf(qs[self].role)
    requires rs[self].role.AcceptorRole? == qs[self].role.AcceptorRole?
    requires rs[self].role.ProposerRole? == qs[self].role.ProposerRole?
    ensures SameShape(ps, rs, self)
  {
  }

  /** Popping the head into `handled` while the rest of the mailbox only grows keeps the FIFO prefix. */
  lemma PrefixAfterPop(orig: seq<Letter>, handled: seq<Letter>, mb: seq<Letter>, mb': seq<Letter>)
    requires orig <= handled + mb && mb != [] && mb[1..] <= mb'
    ensures orig <= (handled + [mb[0]]) + mb'
  {
    assert handled + mb == (handled + [mb[0]]) + mb[1..];
    assert (handled + [mb[0]]) + mb[1..] <= (handled + [mb[0]]) + mb';
  }

  /** A step that does not raise leaves the rest of the drain to the state it reaches, which is smaller. */
  lemma DrainContinues(before: Net, self: Id, after: Net)
    requires self < |before.procs| && before.procs[self].mailbox != []
    requires MailboxStep(before, self) == Outcome(after, None)
    ensures self < |after.procs|
    ensures LexBelow(after.procs[self].mailbox, before.procs[self].mailbox)
    ensures DrainAll(after, self) == DrainAll(before, self)
  {
    MailboxStepShrinks(before, self);
  }

  lemma DrainedExtend(trace: seq<Net>, handled: seq<Letter>, self: Id, next: Net)
    requires Drained(trace, handled, self)
    requires var last := trace[|trace| - 1];
             self < |last.procs| && last.procs[self].mailbox != [] && MailboxStep(last, self) == Outcome(next, None)
    ensures Drained(trace + [next], handled + [trace[|trace| - 1].procs[self].mailbox[0]], self)
  {
    var trace' := trace + [next];
    var handled' := handled + [trace[|trace| - 1].procs[self].mailbox[0]];
    forall i | 0 <= i < |handled'|
      ensures self < |trace'[i].procs| && trace'[i].procs[self].mailbox != []
      ensures handled'[i] == trace'[i].procs[self].mailbox[0]
      ensures MailboxStep(trace'[i], self) == Outcome(trace'[i + 1], None)
    {
      assert trace'[i] == trace[i];
      if i < |handled| {
        assert trace'[i + 1] == trace[i + 1] && handled'[i] == handled[i];
      }
    }
  }

  /* ---------------------------------------------------------------- proposing */

  /** `ProposerRole(...)` around a proposer's reaction. */
  function AsRole(r: Reaction<ProposerState>): Reaction<Role> {
    Reaction(ProposerRole(r.state), r.outbox, r.err)
  }

  /** `q` is what `get_quorum_of_acceptor_ids(exclude=[])` can return for the registry `ps`. */
  ghost predicate IsQuorum(q: seq<Id>, ps: seq<Proc>) {
    multiset(q) == multiset(AcceptorIds(ps, {}))
  }

  /** Reset the round on a fresh quorum and send it Prepares, once the number has passed the assertion. */
  method OpenRound(c: Coordinator, self: Id, proposal: int, number: int) returns (err: Option<Error>, quorum: seq<Id>)
    requires self < |c.processors| && c.processors[self].role.ProposerRole?
    requires var pr := c.processors[self].role.proposer; pr.number.None? || number > pr.number.value
    modifies c
    ensures IsQuorum(quorum, old(c.processors))
    ensures Outcome(c.State(), err) ==
              AfterReaction(old(c.State()), self, AsRole(StartRound(old(c.processors[self].role.proposer), self, proposal, number, quorum)))
    ensures c.deathDraws == old(c.deathDraws)
  {
    var pr := c.processors[self].role.proposer;
    quorum := c.GetQuorumOfAcceptorIds({});
    var pr' := pr.(proposal := Some(proposal), number := Some(number), acceptors := Some(quorum), promises := map[]);
    ghost var letters := LettersTo(self, quorum, PrepareMessage(number));
    assert StartRound(pr, self, proposal, number, quorum) == Reaction(pr', letters, None);
    c.processors := c.processors[self := c.processors[self].(role := ProposerRole(pr'))];
    err := SendToAll(c, self, quorum, PrepareMessage(number));
  }

  /**
   * The body of `Proposer.generate_proposal` after the generator call: assert the number
   * exceeds the previous one, take a quorum, reset the round and send it Prepares.
   */
  method BeginRound(c: Coordinator, self: Id, proposal: int, number: int) returns (err: Option<Error>)
    requires self < |c.processors| && c.processors[self].role.ProposerRole?
    modifies c
    ensures var pr := old(c.processors[self].role.proposer);
            exists q :: IsQuorum(q, old(c.processors))
                     && Outcome(c.State(), err) == AfterReaction(old(c.State()), self, AsRole(StartRound(pr, self, proposal, number, q)))
    ensures c.deathDraws == old(c.deathDraws)
  {
    var pr := c.processors[self].role.proposer;
    if pr.number.Some? && !(number > pr.number.value) {
      ghost var q := AcceptorIds(c.processors, {});
      assert IsQuorum(q, c.processors);
      assert c.processors[self].(role := ProposerRole(pr)) == c.processors[self];
      return Some(AssertionError("n > self.number"));
    }
    var quorum;
    err, quorum := OpenRound(c, self, proposal, number);
  }

  /**
   * `Proposer.generate_proposal`: draw `(p, n)` from the generator, then begin the round.
   * A generator still ahead of the last number always passes the `n > self.number` assertion.
   */
  method GenerateProposal(c: Coordinator, self: Id) returns (err: Option<Error>)
    requires self < |c.processors| && c.processors[self].role.ProposerRole?
    modifies c, c.processors[self].role.proposer.gen
    ensures var pr := old(c.processors[self].role.proposer);
            pr.gen.x == old(pr.gen.x) + Step
    ensures var pr := old(c.processors[self].role.proposer);
            var n := old(pr.gen.x);
            exists q :: IsQuorum(q, old(c.processors))
                     && Outcome(c.State(), err) == AfterReaction(old(c.State()), self, AsRole(StartRound(pr, self, n, n, q)))
    ensures c.deathDraws == old(c.deathDraws)
    ensures |c.processors| == |old(c.processors)|
    ensures forall j :: 0 <= j < |c.processors| ==> c.processors[j].alive == old(c.processors[j].alive)
    ensures c.processors[self].role.ProposerRole?
    ensures c.processors[self].role.proposer.gen == old(c.processors[self].role.proposer.gen)
    ensures c.processors[self].role.proposer.loopNum == old(c.processors[self].role.proposer.loopNum)
    ensures var pr := old(c.processors[self].role.proposer);
            pr.number.None? || pr.number.value < old(pr.gen.x) ==>
              err != Some(AssertionError("n > self.number"))
              && (err.None? ==> c.processors[self].role.proposer.number == Some(old(pr.gen.x)))
  {
    var pr := c.processors[self].role.proposer;
    var p, n := pr.gen.GetProposal();
    err := BeginRound(c, self, p, n);
    ghost var q :| IsQuorum(q, old(c.processors))
                 && Outcome(c.State(), err) == AfterReaction(old(c.State()), self, AsRole(StartRound(pr, self, n, n, q)));
    RoundEffect(old(c.State()), self, pr, n, q, Outcome(c.State(), err));
  }

  /**
   * What a round start leaves behind: only `self`'s proposer fields change (the generator
   * and the iteration count stay), and a number above the last one passes the assertion.
   */
  lemma RoundEffect(n: Net, self: Id, pr: ProposerState, x: int, q: seq<Id>, o: Outcome)
    requires self < |n.procs| && n.procs[self].role == ProposerRole(pr)
    requires o == AfterReaction(n, self, AsRole(StartRound(pr, self, x, x, q)))
    ensures |o.net.procs| == |n.procs|
    ensures forall j :: 0 <= j < |n.procs| ==> o.net.procs[j].alive == n.procs[j].alive
    ensures o.net.procs[self].role.ProposerRole?
    ensures o.net.procs[self].role.proposer.gen == pr.gen && o.net.procs[self].role.proposer.loopNum == pr.loopNum
    ensures pr.number.None? || pr.number.value < x ==>
              o.err != Some(AssertionError("n > self.number"))
              && (o.err.None? ==> o.net.procs[self].role.proposer.number == Some(x))
  {
  }


  /* ---------------------------------------------------------------- action loop */

  /** `self.loop_num += 1` on the proposer at `self`. */
  function CountIteration(n: Net, self: Id): Net {
    if self < |n.procs| && n.procs[self].role.ProposerRole? then
      var p := n.procs[self];
      n.(procs := n.procs[self := p.(role := ProposerRole(p.role.proposer.(loopNum := p.role.proposer.loopNum + 1)))])
    else
      n
  }

  /** The counter of the generator a role owns (0 for a role without one). */
  function GenCount(r: Role): int
    reads GenOf(r)
  {
    if r.ProposerRole? then r.proposer.gen.x else 0
  }

  /**
   * What `action_loop` does, as a relation between the registry before (`n`) and after
   * (`o`) and the proposer's generator counter before (`x`) and after (`x'`). A proposer
   * whose `loop_num % propose_every` is 0 draws `(x, x)`, starts a round with it on some
   * quorum of the registry and, unless that raised, counts the iteration; one that is not
   * due only counts it; a zero cadence raises before anything changes; other classes do nothing.
   */
  ghost predicate ActionEffect(n: Net, self: Id, x: int, o: Outcome, x': int)
    requires self < |n.procs|
  {
    match n.procs[self].role
    case ProposerRole(pr) =>
      (match ShouldPropose(pr.loopNum, pr.proposeEvery)
       case Err(e) => o == Outcome(n, Some(e)) && x' == x
       case Ok(due) =>
         if !due then
           o == Outcome(CountIteration(n, self), None) && x' == x
         else
           && x' == x + Step
           && exists q :: IsQuorum(q, n.procs)
                          && var r := AfterReaction(n, self, AsRole(StartRound(pr, self, x, x, q)));
                             o == if r.err.Some? then r else Outcome(CountIteration(r.net, self), None))
    case _ => o == Outcome(n, None) && x' == x
  }

  /** `self.loop_num += 1`, in place. */
  method CountLoop(c: Coordinator, self: Id)
    requires self < |c.processors| && c.processors[self].role.ProposerRole?
    modifies c
    ensures c.State() == CountIteration(old(c.State()), self)
    ensures c.deathDraws == old(c.deathDraws)
    ensures |c.processors| == |old(c.processors)|
    ensures forall j :: 0 <= j < |c.processors| ==> c.processors[j].alive == old(c.processors[j].alive)
    ensures c.processors[self].role.ProposerRole?
    ensures c.processors[self].role.proposer.gen == old(c.processors[self].role.proposer.gen)
  {
    var q := c.processors[self];
    c.processors := c.processors[self := q.(role := ProposerRole(q.role.proposer.(loopNum := q.role.proposer.loopNum + 1)))];
  }

  /**
   * `Proposer.action_loop`: propose when `loop_num % propose_every == 0`, then count the
   * iteration; `Processor.action_loop` (acceptors) does nothing.
   */
  method ActionLoop(c: Coordinator, self: Id) returns (err: Option<Error>)
    requires self < |c.processors|
    modifies c, GenOf(c.processors[self].role)
    ensures c.deathDraws == old(c.deathDraws)
    ensures |c.processors| == |old(c.processors)|
    ensures forall j :: 0 <= j < |c.processors| ==> c.processors[j].alive == old(c.processors[j].alive)
    ensures GenOf(c.processors[self].role) == GenOf(old(c.processors[self].role))
    ensures c.processors[self].role.AcceptorRole? == old(c.processors[self].role.AcceptorRole?)
    ensures c.processors[self].role.ProposerRole? == old(c.processors[self].role.ProposerRole?)
    ensures ActionEffect(old(c.State()), self, old(GenCount(c.processors[self].role)),
                         Outcome(c.State(), err), GenCount(old(c.processors[self].role)))
  {
    var p := c.processors[self];
    match p.role
    case ProposerRole(pr) =>
      var should := ShouldPropose(pr.loopNum, pr.proposeEvery);
      if should.Err? {
        return Some(should.error);
      }
      ghost var r: Outcome := Outcome(c.State(), None);
      if should.value {
        err := GenerateProposal(c, self);
        ghost var q :| IsQuorum(q, old(c.processors))
                       && Outcome(c.State(), err)
                          == AfterReaction(old(c.State()), self, AsRole(StartRound(pr, self, old(pr.gen.x), old(pr.gen.x), q)));
        r := Outcome(c.State(), err);
        if err.Some? {
          return;
        }
      }
      CountLoop(c, self);
      err := None;
    case _ =>
      err := None;
  }

  /* ---------------------------------------------------------------- run loops */

  /** The monitor at `self` with iteration count `loopNum` and liveness `alive`, the rest of `n` as it was. */
  function MonitorAt(n: Net, self: Id, loopNum: nat, alive: bool): (o: Net)
    requires self < |n.procs|
    ensures |o.procs| == |n.procs| && o.lossDraws == n.lossDraws
    ensures o.procs[self].role == MonitorRole(loopNum) && o.procs[self].alive == alive
  {
    n.(procs := n.procs[self := n.procs[self].(role := MonitorRole(loopNum), alive := alive)])
  }

  /** A later count and liveness override earlier ones. */
  lemma MonitorAtTwice(n: Net, self: Id, l1: nat, a1: bool, l2: nat, a2: bool)
    requires self < |n.procs|
    ensures MonitorAt(MonitorAt(n, self, l1, a1), self, l2, a2) == MonitorAt(n, self, l2, a2)
  {
    var m1 := MonitorAt(n, self, l1, a1);
    assert m1.procs[self].(role := MonitorRole(l2), alive := a2) == n.procs[self].(role := MonitorRole(l2), alive := a2);
    assert m1.procs[self := m1.procs[self].(role := MonitorRole(l2), alive := a2)]
        == n.procs[self := n.procs[self].(role := MonitorRole(l2), alive := a2)];
  }

  /** Iterations until a monitor whose count is `loopNum` next consults the verdict. */
  function FirstCheck(loopNum: nat): (t: nat)
    ensures 1 <= t <= 10 && (loopNum + t) % 10 == 0
  {
    10 - loopNum % 10
  }

  /** No iteration before `FirstCheck` lands on a multiple of 10. */
  lemma NoCheckBefore(loopNum: nat, u: nat)
    requires 1 <= u < FirstCheck(loopNum)
    ensures (loopNum + u) % 10 != 0
  {
  }

  /**
   * What `Monitor.run` does within `fuel` iterations when no other processor moves
   * meanwhile, so that every check sees the same verdict: a dead monitor does nothing;
   * before its first check it only counts; at the first check `Ok(false)` stops it, an
   * error propagates, and `Ok(true)` keeps it running for all of its fuel.
   */
  ghost predicate MonitorEffect(n: Net, self: Id, fuel: nat, o: Outcome)
    requires self < |n.procs| && n.procs[self].role.MonitorRole?
  {
    EffectUnder(n, self, fuel, Verdict(n.procs), o)
  }

  /** `MonitorEffect` when every check sees verdict `v`. */
  ghost predicate EffectUnder(n: Net, self: Id, fuel: nat, v: Result<bool, Error>, o: Outcome)
    requires self < |n.procs| && n.procs[self].role.MonitorRole?
  {
    var l0 := n.procs[self].role.monitorLoopNum;
    var t0 := FirstCheck(l0);
    if !n.procs[self].alive then
      o == Outcome(n, None)
    else if fuel < t0 then
      o == Outcome(MonitorAt(n, self, l0 + fuel, true), None)
    else
      match v
      case Err(e) => o == Outcome(MonitorAt(n, self, l0 + t0, true), Some(e))
      case Ok(b) => o == Outcome(MonitorAt(n, self, if b then l0 + fuel else l0 + t0, b), None)
  }

  /** One iteration of `Monitor.run`: count it and, on every 10th, set `alive` to the verdict or raise its error. */
  function Tick(n: Net, self: Id): Outcome
    requires self < |n.procs| && n.procs[self].role.MonitorRole?
  {
    TickUnder(n, self, Verdict(n.procs))
  }

  /** `Tick` when the check would see verdict `v`. */
  function TickUnder(n: Net, self: Id, v: Result<bool, Error>): Outcome
    requires self < |n.procs| && n.procs[self].role.MonitorRole?
  {
    var l := n.procs[self].role.monitorLoopNum + 1;
    if l % 10 != 0 then
      Outcome(MonitorAt(n, self, l, n.procs[self].alive), None)
    else
      match v
      case Err(e) => Outcome(MonitorAt(n, self, l, n.procs[self].alive), Some(e))
      case Ok(b) => Outcome(MonitorAt(n, self, l, b), None)
  }

  /** A monitor still running after `t` iterations has only counted them, and is before its first check or saw `Ok(true)`. */
  lemma MonitorEffectLive(n0: Net, self: Id, t: nat, n: Net)
    requires self < |n0.procs| && n0.procs[self].role.MonitorRole?
    requires MonitorEffect(n0, self, t, Outcome(n, None)) && self < |n.procs| && n.procs[self].alive
    ensures n0.procs[self].alive
    ensures n == MonitorAt(n0, self, n0.procs[self].role.monitorLoopNum + t, true)
    ensures t < FirstCheck(n0.procs[self].role.monitorLoopNum) || Verdict(n0.procs) == Ok(true)
  {
  }

  /** A live monitor `t` iterations into `MonitorEffect` moves, by one more tick, to `MonitorEffect` after `t + 1`. */
  lemma MonitorEffectStep(n0: Net, self: Id, t: nat, n: Net)
    requires self < |n0.procs| && n0.procs[self].role.MonitorRole?
    requires MonitorEffect(n0, self, t, Outcome(n, None)) && self < |n.procs| && n.procs[self].alive
    ensures MonitorEffect(n0, self, t + 1, Tick(n, self))
  {
    MonitorEffectLive(n0, self, t, n);
    StepAt(n0, self, t);
  }

  /** `MonitorEffectStep` from what `MonitorEffectLive` tells of the state after `t` iterations. */
  lemma StepAt(n0: Net, self: Id, t: nat)
    requires self < |n0.procs| && n0.procs[self].role.MonitorRole? && n0.procs[self].alive
    requires t < FirstCheck(n0.procs[self].role.monitorLoopNum) || Verdict(n0.procs) == Ok(true)
    ensures MonitorEffect(n0, self, t + 1, Tick(MonitorAt(n0, self, n0.procs[self].role.monitorLoopNum + t, true), self))
  {
    var l0 := n0.procs[self].role.monitorLoopNum;
    var v := Verdict(n0.procs);
    TickVerdict(n0, self, l0 + t);
    StepUnder(n0, self, t, v);
  }

  /** The monitor's own fields do not enter the verdict its tick consults. */
  lemma TickVerdict(n0: Net, self: Id, loopNum: nat)
    requires self < |n0.procs| && n0.procs[self].role.MonitorRole?
    ensures Tick(MonitorAt(n0, self, loopNum, true), self)
         == TickUnder(MonitorAt(n0, self, loopNum, true), self, Verdict(n0.procs))
  {
    VerdictFrame(n0.procs, self, n0.procs[self].(role := MonitorRole(loopNum), alive := true));
  }

  /** `MonitorEffectStep` for a fixed verdict `v`. */
  lemma StepUnder(n0: Net, self: Id, t: nat, v: Result<bool, Error>)
    requires self < |n0.procs| && n0.procs[self].role.MonitorRole? && n0.procs[self].alive
    requires t < FirstCheck(n0.procs[self].role.monitorLoopNum) || v == Ok(true)
    ensures var l0 := n0.procs[self].role.monitorLoopNum;
            EffectUnder(n0, self, t + 1, v, TickUnder(MonitorAt(n0, self, l0 + t, true), self, v))
  {
    var t0 := FirstCheck(n0.procs[self].role.monitorLoopNum);
    if t + 1 < t0 {
      TickBeforeCheck(n0, self, t, v);
    } else if t + 1 == t0 {
      TickAtCheck(n0, self, t, v);
    } else {
      TickAfterCheck(n0, self, t);
    }
  }

  /** Before the first check a tick only counts. */
  lemma TickBeforeCheck(n0: Net, self: Id, t: nat, v: Result<bool, Error>)
    requires self < |n0.procs| && n0.procs[self].role.MonitorRole? && n0.procs[self].alive
    requires t + 1 < FirstCheck(n0.procs[self].role.monitorLoopNum)
    ensures var l0 := n0.procs[self].role.monitorLoopNum;
            EffectUnder(n0, self, t + 1, v, TickUnder(MonitorAt(n0, self, l0 + t, true), self, v))
  {
    var l0 := n0.procs[self].role.monitorLoopNum;
    NoCheckBefore(l0, t + 1);
    MonitorAtTwice(n0, self, l0 + t, true, l0 + t + 1, true);
  }

  /** The tick that lands on the first check applies the verdict. */
  lemma TickAtCheck(n0: Net, self: Id, t: nat, v: Result<bool, Error>)
    requires self < |n0.procs| && n0.procs[self].role.MonitorRole? && n0.procs[self].alive
    requires t + 1 == FirstCheck(n0.procs[self].role.monitorLoopNum)
    ensures var l0 := n0.procs[self].role.monitorLoopNum;
            EffectUnder(n0, self, t + 1, v, TickUnder(MonitorAt(n0, self, l0 + t, true), self, v))
  {
    var l0 := n0.procs[self].role.monitorLoopNum;
    match v
    case Err(e) =>
      MonitorAtTwice(n0, self, l0 + t, true, l0 + t + 1, true);
    case Ok(b) =>
      MonitorAtTwice(n0, self, l0 + t, true, l0 + t + 1, b);
  }

  /** After the first check, under verdict `Ok(true)`, a tick only counts. */
  lemma TickAfterCheck(n0: Net, self: Id, t: nat)
    requires self < |n0.procs| && n0.procs[self].role.MonitorRole? && n0.procs[self].alive
    requires t + 1 > FirstCheck(n0.procs[self].role.monitorLoopNum)
    ensures var l0 := n0.procs[self].role.monitorLoopNum;
            EffectUnder(n0, self, t + 1, Ok(true), TickUnder(MonitorAt(n0, self, l0 + t, true), self, Ok(true)))
  {
    var l0 := n0.procs[self].role.monitorLoopNum;
    MonitorAtTwice(n0, self, l0 + t, true, l0 + t + 1, true);
  }

  /** Before its first iteration the monitor has done nothing. */
  lemma MonitorEffectZero(n0: Net, self: Id)
    requires self < |n0.procs| && n0.procs[self].role.MonitorRole?
    ensures MonitorEffect(n0, self, 0, Outcome(n0, None))
  {
    assert n0.procs[self].alive ==> n0.procs[self] == n0.procs[self].(role := MonitorRole(n0.procs[self].role.monitorLoopNum), alive := true);
    assert n0.procs[self].alive ==> n0 == MonitorAt(n0, self, n0.procs[self].role.monitorLoopNum, true);
  }

  /** Once the monitor has stopped or raised after `t` iterations, more fuel changes nothing. */
  lemma MonitorEffectStops(n0: Net, self: Id, t: nat, fuel: nat, o: Outcome)
    requires self < |n0.procs| && n0.procs[self].role.MonitorRole?
    requires t <= fuel && MonitorEffect(n0, self, t, o)
    requires self < |o.net.procs| && (o.err.Some? || !o.net.procs[self].alive)
    ensures MonitorEffect(n0, self, fuel, o)
  {
  }

  /** One iteration of `Monitor.run`: count it and, on every 10th, set `alive` to the verdict. */
  method MonitorTick(c: Coordinator, self: Id) returns (err: Option<Error>)
    requires self < |c.processors| && c.processors[self].role.MonitorRole?
    modifies c
    ensures |c.processors| == |old(c.processors)|
    ensures Outcome(c.State(), err) == Tick(old(c.State()), self)
    ensures c.deathDraws == old(c.deathDraws)
  {
    var ps := c.processors;
    var p := ps[self];
    var loopNum := p.role.monitorLoopNum + 1;
    ghost var n0 := c.State();
    ghost var v := Verdict(ps);
    var q := p.(role := MonitorRole(loopNum));
    assert q == p.(role := MonitorRole(loopNum), alive := p.alive);
    c.processors := ps[self := q];
    err := None;
    if loopNum % 10 == 0 {
      var r := MonitorVerdict(c, self, ps);
      if r.Err? {
        err := Some(r.error);
      } else {
        c.processors := ps[self := p.(role := MonitorRole(loopNum), alive := r.value)];
      }
    }
    TickCases(n0, self, v);
  }

  /** `report_accepted()` as the monitor at `self` calls it: its own fields do not enter the verdict. */
  method MonitorVerdict(c: Coordinator, self: Id, ghost ps: seq<Proc>) returns (r: Result<bool, Error>)
    requires self < |ps| && ps[self].role.MonitorRole?
    requires |c.processors| == |ps| && c.processors == ps[self := c.processors[self]]
    requires c.processors[self].role.MonitorRole?
    ensures r == Verdict(ps)
  {
    r := c.ReportAccepted();
    VerdictFrame(ps, self, c.processors[self]);
  }

  /** A tick leaves a monitor at `self`. */
  lemma TickKeepsMonitor(n: Net, self: Id)
    requires self < |n.procs| && n.procs[self].role.MonitorRole?
    ensures var o := Tick(n, self); |o.net.procs| == |n.procs| && o.net.procs[self].role.MonitorRole?
  {
    TickCases(n, self, Verdict(n.procs));
  }

  /** `TickUnder` case by case. */
  lemma TickCases(n: Net, self: Id, v: Result<bool, Error>)
    requires self < |n.procs| && n.procs[self].role.MonitorRole?
    ensures var l := n.procs[self].role.monitorLoopNum + 1;
            var a := n.procs[self].alive;
            TickUnder(n, self, v) ==
              if l % 10 != 0 then Outcome(MonitorAt(n, self, l, a), None)
              else if v.Err? then Outcome(MonitorAt(n, self, l, a), Some(v.error))
              else Outcome(MonitorAt(n, self, l, v.value), None)
  {
  }

  /**
   * `Monitor.run`: count iterations and, on every 10th, set `alive` to the verdict of
   * `report_accepted`. Bounded here by `fuel` iterations.
   */
  method MonitorRun(c: Coordinator, self: Id, fuel: nat) returns (err: Option<Error>)
    requires self < |c.processors| && c.processors[self].role.MonitorRole?
    modifies c
    ensures c.deathDraws == old(c.deathDraws)
    ensures MonitorEffect(old(c.State()), self, fuel, Outcome(c.State(), err))
  {
    ghost var n0 := c.State();
    var steps := fuel;
    err := None;
    MonitorEffectZero(n0, self);
    while c.processors[self].alive && steps > 0
      invariant 0 <= steps <= fuel
      invariant self < |c.processors| && c.processors[self].role.MonitorRole?
      invariant c.deathDraws == old(c.deathDraws)
      invariant err.None?
      invariant MonitorEffect(n0, self, fuel - steps, Outcome(c.State(), None))
      decreases steps
    {
      err := MonitorStep(c, self, n0, fuel - steps);
      steps := steps - 1;
      if err.Some? {
        MonitorEffectStops(n0, self, fuel - steps, fuel, Outcome(c.State(), err));
        return;
      }
    }
    if !c.processors[self].alive {
      MonitorEffectStops(n0, self, fuel - steps, fuel, Outcome(c.State(), err));
    }
  }

  /** One tick of `Monitor.run` that extends `MonitorEffect` from `t` iterations to `t + 1`. */
  method MonitorStep(c: Coordinator, self: Id, ghost n0: Net, ghost t: nat) returns (err: Option<Error>)
    requires self < |n0.procs| && n0.procs[self].role.MonitorRole?
    requires self < |c.processors| && c.processors[self].alive
    requires MonitorEffect(n0, self, t, Outcome(c.State(), None))
    modifies c
    ensures self < |c.processors| && c.processors[self].role.MonitorRole?
    ensures c.deathDraws == old(c.deathDraws)
    ensures MonitorEffect(n0, self, t + 1, Outcome(c.State(), err))
  {
    ghost var before := c.State();
    MonitorEffectStep(n0, self, t, before);
    TickKeepsMonitor(before, self);
    err := MonitorTick(c, self);
  }

  /** A processor as `run` sees it: the registry, the death answers to come and its generator's counter. */
  datatype World = World(net: Net, deaths: seq<bool>, genCount: int)

  function WorldOf(c: Coordinator, self: Id): World
    reads c, if self < |c.processors| then GenOf(c.processors[self].role) else {}
  {
    World(c.State(), c.deathDraws, if self < |c.processors| then GenCount(c.processors[self].role) else 0)
  }

  /**
   * One iteration of `Processor.run`'s loop from `w` to `w'`: a death answer sets `alive`
   * to false and nothing else happens; otherwise `process_mailbox` drains the mailbox and,
   * unless it raised, `action_loop` runs.
   */
  ghost predicate Iteration(w: World, self: Id, w': World, err: Option<Error>)
    requires self < |w.net.procs|
  {
    && w'.deaths == Rest(w.deaths)
    && if Draw(w.deaths) then
         && err.None? && w'.genCount == w.genCount
         && w'.net == w.net.(procs := w.net.procs[self := w.net.procs[self].(alive := false)])
       else
         var m := DrainAll(w.net, self);
         if m.err.Some? then
           err == m.err && w'.net == m.net && w'.genCount == w.genCount
         else
           self < |m.net.procs| && ActionEffect(m.net, self, w.genCount, Outcome(w'.net, err), w'.genCount)
  }

  /** One iteration of `Processor.run`: the death check, then `process_mailbox`, then `action_loop`. */
  method RunStep(c: Coordinator, self: Id) returns (err: Option<Error>)
    requires self < |c.processors|
    requires !c.processors[self].role.MonitorRole?
    modifies c, GenOf(c.processors[self].role)
    ensures |c.processors| == |old(c.processors)|
    ensures GenOf(c.processors[self].role) == GenOf(old(c.processors[self].role))
    ensures c.processors[self].role.MonitorRole? == old(c.processors[self].role.MonitorRole?)
    ensures c.processors[self].alive ==> old(c.processors[self].alive)
    ensures Iteration(old(WorldOf(c, self)), self, WorldOf(c, self), err)
  {
    var die := c.ShouldDie();
    if die {
      c.processors := c.processors[self := c.processors[self].(alive := false)];
      return None;
    }
    ghost var n0 := c.State();
    var e, trace, handled := ProcessMailbox(c, self);
    ghost var m := Outcome(c.State(), e);
    assert GenCount(c.processors[self].role) == old(GenCount(c.processors[self].role));
    if e.Some? {
      return e;
    }
    err := ActionLoop(c, self);
  }

  /** Before world `i` the processor is alive, and iteration `i` leads to world `i + 1`; only the last may raise `err`. */
  ghost predicate IterationAt(worlds: seq<World>, i: nat, self: Id, err: Option<Error>)
    requires i + 1 < |worlds|
  {
    && self < |worlds[i].net.procs| && worlds[i].net.procs[self].alive
    && Iteration(worlds[i], self, worlds[i + 1], if i + 2 == |worlds| then err else None)
  }

  /**
   * `Processor.run` (or `Monitor.run` for a monitor): while alive, first draw for death and
   * stop on a hit before touching the mailbox; otherwise drain the mailbox and run the
   * periodic action. Bounded here by `fuel` iterations; `worlds` are the states before
   * each iteration and at the end.
   */
  method Run(c: Coordinator, self: Id, fuel: nat) returns (err: Option<Error>, ghost worlds: seq<World>)
    requires self < |c.processors|
    modifies c, GenOf(c.processors[self].role)
    ensures |c.processors| == |old(c.processors)|
    ensures c.processors[self].alive ==> old(c.processors[self].alive)
    ensures !old(c.processors[self].alive) ==>
              err.None? && c.processors == old(c.processors)
              && c.lossDraws == old(c.lossDraws) && c.deathDraws == old(c.deathDraws)
    ensures old(c.processors[self].role.MonitorRole?) ==>
              c.deathDraws == old(c.deathDraws) && MonitorEffect(old(c.State()), self, fuel, Outcome(c.State(), err))
    ensures !old(c.processors[self].role.MonitorRole?) ==>
              && worlds != [] && |worlds| <= fuel + 1
              && worlds[0] == old(WorldOf(c, self)) && worlds[|worlds| - 1] == WorldOf(c, self)
              && (forall i :: 0 <= i < |worlds| - 1 ==> IterationAt(worlds, i, self, err))
              && (err.None? && c.processors[self].alive ==> |worlds| == fuel + 1)
  {
    worlds := [WorldOf(c, self)];
    if c.processors[self].role.MonitorRole? {
      err := MonitorRun(c, self, fuel);
      return;
    }
    var steps := fuel;
    err := None;
    while c.processors[self].alive && steps > 0
      invariant self < |c.processors| && |c.processors| == |old(c.processors)|
      invariant !c.processors[self].role.MonitorRole?
      invariant GenOf(c.processors[self].role) == GenOf(old(c.processors[self].role))
      invariant c.processors[self].alive ==> old(c.processors[self].alive)
      invariant steps == fuel ==>
                  c.processors == old(c.processors) && c.lossDraws == old(c.lossDraws) && c.deathDraws == old(c.deathDraws)
      invariant !old(c.processors[self].alive) ==> steps == fuel
      invariant err.None?
      invariant worlds != [] && |worlds| == fuel - steps + 1
      invariant worlds[0] == old(WorldOf(c, self)) && worlds[|worlds| - 1] == WorldOf(c, self)
      invariant forall i :: 0 <= i < |worlds| - 1 ==> IterationAt(worlds, i, self, None)
      decreases steps
    {
      steps := steps - 1;
      ghost var before := worlds;
      err := RunStep(c, self);
      worlds := worlds + [WorldOf(c, self)];
      ExtendWorlds(before, WorldOf(c, self), self, err);
      if err.Some? {
        return;
      }
    }
  }

  /** Appending the world after one more iteration keeps the chain of iterations. */
  lemma ExtendWorlds(worlds: seq<World>, w: World, self: Id, err: Option<Error>)
    requires worlds != []
    requires forall i :: 0 <= i < |worlds| - 1 ==> IterationAt(worlds, i, self, None)
    requires var last := worlds[|worlds| - 1];
             self < |last.net.procs| && last.net.procs[self].alive && Iteration(last, self, w, err)
    ensures forall i :: 0 <= i < |worlds| ==> IterationAt(worlds + [w], i, self, err)
  {
    forall i | 0 <= i < |worlds|
      ensures IterationAt(worlds + [w], i, self, err)
    {
      if i + 1 < |worlds| {
        assert IterationAt(worlds, i, self, None);
        assert (worlds + [w])[i] == worlds[i] && (worlds + [w])[i + 1] == worlds[i + 1];
      }
    }
  }
}
