/**
 * paxos_asyncio/participants.py: the state of each processor class and what
 * its message handlers do to it, as functions. The methods that run them
 * against the coordinator's registry are in module Actors.
 */
module Participants {
  import opened Wrappers
  import opened Messages
  import opened ProcessGenerator

  /* ---------------------------------------------------------------- Acceptor */

  /** `Acceptor`'s fields; all three start as `None`. */
  datatype AcceptorState = AcceptorState(
    highestNumberSeen: Option<int>,
    acceptedNumber: Option<int>,
    acceptedValue: Option<int>)

  const FreshAcceptor: AcceptorState := AcceptorState(None, None, None)

  /** `highest_number_seen is None or highest_number_seen < number`. */
  predicate WillPromise(a: AcceptorState, number: int) {
    a.highestNumberSeen.None? || a.highestNumberSeen.value < number
  }

  /** `x` is at or above `y` where `None` is below every number. */
  predicate AtLeast(x: Option<int>, y: Option<int>) {
    y.None? || (x.Some? && x.value >= y.value)
  }

  /**
   * `_handle_prepare_message`: the new state and the reply to the sender, if any.
   * A promise carries the pair accepted before this call.
   */
  function OnPrepare(a: AcceptorState, number: int): (r: (AcceptorState, Option<Message>))
    ensures r.1.Some? <==> WillPromise(a, number)
    ensures r.1.Some? ==> (r.0.highestNumberSeen == Some(number)
                           && r.1.value == PromiseMessage(number, a.acceptedNumber, a.acceptedValue))
    ensures r.1.None? ==> r.0 == a
    ensures r.0.acceptedNumber == a.acceptedNumber && r.0.acceptedValue == a.acceptedValue
    ensures AtLeast(r.0.highestNumberSeen, a.highestNumberSeen)
  {
    if WillPromise(a, number) then
      (a.(highestNumberSeen := Some(number)), Some(PromiseMessage(number, a.acceptedNumber, a.acceptedValue)))
    else
      (a, None)
  }

  /** `_handle_accept_message`: take the pair only at the highest number seen. */
  function OnAccept(a: AcceptorState, number: int, proposal: int): (r: AcceptorState)
    ensures a.highestNumberSeen == Some(number) ==> r.acceptedNumber == Some(number) && r.acceptedValue == Some(proposal)
    ensures a.highestNumberSeen != Some(number) ==> r == a
    ensures r.highestNumberSeen == a.highestNumberSeen
  {
    if a.highestNumberSeen == Some(number) then
      a.(acceptedNumber := Some(number), acceptedValue := Some(proposal))
    else
      a
  }

  /** The pair is set together, and never above the highest number seen. */
  ghost predicate AcceptorInv(a: AcceptorState) {
    && (a.acceptedNumber.Some? <==> a.acceptedValue.Some?)
    && (a.acceptedNumber.Some? ==> a.highestNumberSeen.Some? && a.acceptedNumber.value <= a.highestNumberSeen.value)
  }

  lemma FreshAcceptorInv()
    ensures AcceptorInv(FreshAcceptor)
  {
  }

  lemma PrepareKeepsInv(a: AcceptorState, number: int)
    requires AcceptorInv(a)
    ensures AcceptorInv(OnPrepare(a, number).0)
  {
  }

  lemma AcceptKeepsInv(a: AcceptorState, number: int, proposal: int)
    requires AcceptorInv(a)
    ensures AcceptorInv(OnAccept(a, number, proposal))
  {
  }

  /** Applying the same Accept twice is the same as applying it once. */
  lemma AcceptIdempotent(a: AcceptorState, number: int, proposal: int)
    ensures OnAccept(OnAccept(a, number, proposal), number, proposal) == OnAccept(a, number, proposal)
  {
  }

  /** A Prepare the acceptor promised, followed by an Accept at the same number, is accepted. */
  lemma PrepareThenAccept(a: AcceptorState, number: int, proposal: int)
    requires WillPromise(a, number)
    ensures var b := OnAccept(OnPrepare(a, number).0, number, proposal);
            b.acceptedNumber == Some(number) && b.acceptedValue == Some(proposal)
  {
  }

  /** Once a pair is accepted at `k`, no Prepare numbered `k` or lower is ever promised. */
  lemma NoPromiseAtOrBelowAccepted(a: AcceptorState, k: int, number: int)
    requires AcceptorInv(a) && a.acceptedNumber == Some(k) && number <= k
    ensures OnPrepare(a, number).1.None?
  {
  }

  /** The acceptor after a series of Prepares, handled in order. */
  function ApplyPrepares(a: AcceptorState, ns: seq<int>): AcceptorState
    decreases |ns|
  {
    if ns == [] then a else ApplyPrepares(OnPrepare(a, ns[0]).0, ns[1..])
  }

  /**
   * Over any series of Prepares, `highest_number_seen` never decreases, ends at or above
   * every number seen, and is always one of them or the starting value.
   */
  lemma {:induction false} PreparesMonotone(a: AcceptorState, ns: seq<int>)
    ensures AtLeast(ApplyPrepares(a, ns).highestNumberSeen, a.highestNumberSeen)
    ensures forall i :: 0 <= i < |ns| ==> AtLeast(ApplyPrepares(a, ns).highestNumberSeen, Some(ns[i]))
    ensures ApplyPrepares(a, ns).highestNumberSeen == a.highestNumberSeen
         || exists i :: 0 <= i < |ns| && ApplyPrepares(a, ns).highestNumberSeen == Some(ns[i])
    decreases |ns|
  {
    if ns != [] {
      var b := OnPrepare(a, ns[0]).0;
      PreparesMonotone(b, ns[1..]);
      var r := ApplyPrepares(a, ns);
      assert r == ApplyPrepares(b, ns[1..]);
      forall i | 0 <= i < |ns|
        ensures AtLeast(r.highestNumberSeen, Some(ns[i]))
      {
        if i > 0 {
          assert ns[i] == ns[1..][i - 1];
        }
      }
      if r.highestNumberSeen != a.highestNumberSeen {
        if r.highestNumberSeen == b.highestNumberSeen {
          assert b.highestNumberSeen == Some(ns[0]);
        } else {
          var j :| 0 <= j < |ns[1..]| && r.highestNumberSeen == Some(ns[1..][j]);
          assert r.highestNumberSeen == Some(ns[j + 1]);
        }
      }
    }
  }

  /* ---------------------------------------------------------------- Proposer */

  /** The concrete proposer classes; they differ only in cadence and start-up. */
  datatype ProposerClass = PlainProposer | OneShotProposer | SleepyProposer

  /** `Proposer`'s fields; `v` is only created by the first phase 2. */
  datatype ProposerState = ProposerState(
    cls: ProposerClass,
    gen: IncProposalGenerator,
    proposeEvery: nat,
    loopNum: nat,
    proposal: Option<int>,
    number: Option<int>,
    acceptors: Option<seq<Id>>,
    promises: map<Id, Message>,
    v: Option<int>)

  /** `OneShotProposer` proposes every 2**32 iterations. */
  const OneShotCadence: nat := 0x1_0000_0000

  function NewProposerState(cls: ProposerClass, gen: IncProposalGenerator, proposeEvery: nat): (p: ProposerState)
    ensures p.cls == cls && p.gen == gen && p.loopNum == 0
    ensures p.proposeEvery == if cls == OneShotProposer then OneShotCadence else proposeEvery
    ensures p.proposal.None? && p.number.None? && p.acceptors.None? && p.promises == map[] && p.v.None?
  {
    ProposerState(cls, gen, if cls == OneShotProposer then OneShotCadence else proposeEvery,
                  0, None, None, None, map[], None)
  }

  /** `math.ceil(0.5 * n)`: the promise count at which phase 2 fires. */
  function Threshold(n: nat): (r: nat)
    ensures n <= 2 * r <= n + 1
  {
    (n + 1) / 2
  }

  /** The threshold never exceeds the target count, and is a strict majority of it exactly when that count is odd. */
  lemma ThresholdMajorityIffOdd(n: nat)
    ensures Threshold(n) <= n
    ensures n >= 1 ==> Threshold(n) >= 1
    ensures 2 * Threshold(n) > n <==> n % 2 == 1
  {
  }

  /** The non-None `prev_acc_value`s among the collected promises. */
  ghost function PrevValues(promises: map<Id, Message>): set<int> {
    set k | k in promises && promises[k].PromiseMessage? && promises[k].prevAccValue.Some?
          :: promises[k].prevAccValue.value
  }

  lemma {:induction false} MaxExists(s: set<int>)
    requires s != {}
    ensures exists m :: m in s && forall y :: y in s ==> y <= m
    decreases |s|
  {
    if forall y :: y !in s {
      assert false;
    }
    var x :| x in s;
    var rest := s - {x};
    if rest == {} {
      forall y | y in s ensures y <= x {
        assert y !in rest;
      }
    } else {
      MaxExists(rest);
      var m :| m in rest && forall y :: y in rest ==> y <= m;
      var top := if x <= m then m else x;
      forall y | y in s ensures y <= top {
        if y != x {
          assert y in rest;
        }
      }
      assert top in s;
    }
  }

  /** Python's `max` of a non-empty collection of ints. */
  ghost function MaxOf(s: set<int>): (m: int)
    requires s != {}
    ensures m in s && forall y :: y in s ==> y <= m
  {
    MaxExists(s);
    var m :| m in s && forall y :: y in s ==> y <= m; m
  }

  /**
   * `max((m.prev_acc_value ... if not None), default=self.proposal)`: the largest
   * previously accepted value among the promises, or the own proposal when none carries one.
   */
  ghost function Chosen(promises: map<Id, Message>, proposal: Option<int>): (r: Option<int>)
    ensures PrevValues(promises) == {} ==> r == proposal
    ensures PrevValues(promises) != {} ==>
              r.Some? && r.value in PrevValues(promises) && forall y :: y in PrevValues(promises) ==> y <= r.value
  {
    if PrevValues(promises) == {} then proposal else Some(MaxOf(PrevValues(promises)))
  }

  /** A handler's effect: the receiver's new state, the letters it sends in order, and the error it raised, if any. */
  datatype Reaction<S> = Reaction(state: S, outbox: seq<Letter>, err: Option<Error>)

  /**
   * `_handle_promise_message`: store the promise under its sender, then, when
   * the number of senders is exactly the threshold, pick the value and send
   * `AcceptMessage(number, v)` to every target.
   */
  ghost function OnPromise(p: ProposerState, self: Id, frm: Id, msg: Message): (r: Reaction<ProposerState>)
    ensures r.state.promises == p.promises[frm := msg]
    ensures r.state.(promises := p.promises, v := p.v) == p
    ensures r.err.Some? ==> r.outbox == []
    ensures CountType(r.outbox, PrepareType) == 0 && CountType(r.outbox, PromiseType) == 0
    ensures p.acceptors.None? ==> r.err == Some(AssertionError("self.acceptors is not None")) && r.state.v == p.v
    ensures p.acceptors.Some? ==>
              var ps := p.promises[frm := msg];
              var at := |ps| == Threshold(|p.acceptors.value|);
              && (r.err.Some? <==> at && (p.number.None? || Chosen(ps, p.proposal).None?))
              && r.state.v == (if at then Chosen(ps, p.proposal) else p.v)
              && (at && p.number.None? ==> r.err == Some(AssertionError("self.number is not None")))
              && (at && p.number.Some? && Chosen(ps, p.proposal).None? ==> r.err == Some(AssertionError("self.v is not None")))
  {
    var p1 := p.(promises := p.promises[frm := msg]);
    if p1.acceptors.None? then
      Reaction(p1, [], Some(AssertionError("self.acceptors is not None")))
    else if |p1.promises| != Threshold(|p1.acceptors.value|) then
      Reaction(p1, [], None)
    else
      var v := Chosen(p1.promises, p1.proposal);
      var p2 := p1.(v := v);
      if p1.number.None? then
        Reaction(p2, [], Some(AssertionError("self.number is not None")))
      else if v.None? then
        Reaction(p2, [], Some(AssertionError("self.v is not None")))
      else
        var accept := AcceptMessage(p1.number.value, v.value);
        CountLettersTo(self, p1.acceptors.value, accept, PrepareType);
        CountLettersTo(self, p1.acceptors.value, accept, PromiseType);
        Reaction(p2, LettersTo(self, p1.acceptors.value, accept), None)
  }

  /**
   * Phase 2 sends exactly when the count of distinct senders equals the threshold:
   * one `AcceptMessage(number, v)` per target, in target order, with `v` the largest
   * previously accepted value or else the own proposal.
   */
  lemma PhaseTwoAtThreshold(p: ProposerState, self: Id, frm: Id, msg: Message)
    requires p.acceptors.Some?
    ensures var r := OnPromise(p, self, frm, msg);
            var promises := p.promises[frm := msg];
            var v := Chosen(promises, p.proposal);
            r.outbox != [] <==> (|promises| == Threshold(|p.acceptors.value|) && p.number.Some? && v.Some?)
    ensures var r := OnPromise(p, self, frm, msg);
            var promises := p.promises[frm := msg];
            r.outbox != [] ==>
              r.outbox == LettersTo(self, p.acceptors.value, AcceptMessage(p.number.value, Chosen(promises, p.proposal).value))
  {
  }

  /** Without a round started (`acceptors is None`), a Promise fails the handler's assertion. */
  lemma PromiseBeforeRound(p: ProposerState, self: Id, frm: Id, msg: Message)
    requires p.acceptors.None?
    ensures OnPromise(p, self, frm, msg).err == Some(AssertionError("self.acceptors is not None"))
  {
  }

  /** Once the threshold has been reached, a Promise from a new sender is stored but sends nothing. */
  lemma NoRefireOnNewSender(p: ProposerState, self: Id, frm: Id, msg: Message)
    requires p.acceptors.Some? && |p.promises| >= Threshold(|p.acceptors.value|)
    requires frm !in p.promises
    ensures OnPromise(p, self, frm, msg).outbox == []
  {
    assert p.promises[frm := msg].Keys == p.promises.Keys + {frm};
  }

  /**
   * A repeated sender does not grow `promises`, so when the count already stands at the
   * threshold (say a stale Promise from the previous round was stored after `promises`
   * was emptied), that sender's next Promise sends the Accepts a second time.
   */
  lemma RefireOnRepeatedSender(p: ProposerState, self: Id, frm: Id, msg: Message)
    requires p.acceptors.Some? && p.number.Some? && frm in p.promises
    requires |p.promises| == Threshold(|p.acceptors.value|)
    requires Chosen(p.promises[frm := msg], p.proposal).Some?
    ensures var r := OnPromise(p, self, frm, msg);
            r.err.None? && r.outbox != []
            && r.outbox == LettersTo(self, p.acceptors.value,
                                     AcceptMessage(p.number.value, Chosen(p.promises[frm := msg], p.proposal).value))
  {
    assert p.promises[frm := msg].Keys == p.promises.Keys;
    assert |p.promises| >= 1 by { assert frm in p.promises.Keys; }
  }

  /** Two promise maps that agree on keys and on every previously accepted value have the same previous values. */
  lemma PrevValuesAgree(m1: map<Id, Message>, m2: map<Id, Message>)
    requires m1.Keys == m2.Keys
    requires forall k :: k in m1 ==> m1[k].PromiseMessage? == m2[k].PromiseMessage?
    requires forall k :: k in m1 && m1[k].PromiseMessage? ==> m1[k].prevAccValue == m2[k].prevAccValue
    ensures PrevValues(m1) == PrevValues(m2)
  {
    forall y | y in PrevValues(m1) ensures y in PrevValues(m2) {
      var k :| k in m1 && m1[k].PromiseMessage? && m1[k].prevAccValue.Some? && m1[k].prevAccValue.value == y;
      assert k in m2 && m2[k].PromiseMessage? && m2[k].prevAccValue.Some? && m2[k].prevAccValue.value == y;
    }
    forall y | y in PrevValues(m2) ensures y in PrevValues(m1) {
      var k :| k in m2 && m2[k].PromiseMessage? && m2[k].prevAccValue.Some? && m2[k].prevAccValue.value == y;
      assert k in m1 && m1[k].PromiseMessage? && m1[k].prevAccValue.Some? && m1[k].prevAccValue.value == y;
    }
  }

  /** A Promise is not checked against the current round: its `number` has no effect on the handler. */
  lemma PromiseNumberIgnored(p: ProposerState, self: Id, frm: Id, n1: int, n2: int, an: Option<int>, av: Option<int>)
    ensures OnPromise(p, self, frm, PromiseMessage(n1, an, av)).outbox == OnPromise(p, self, frm, PromiseMessage(n2, an, av)).outbox
    ensures OnPromise(p, self, frm, PromiseMessage(n1, an, av)).err == OnPromise(p, self, frm, PromiseMessage(n2, an, av)).err
  {
    var m1 := p.promises[frm := PromiseMessage(n1, an, av)];
    var m2 := p.promises[frm := PromiseMessage(n2, an, av)];
    assert m1.Keys == m2.Keys;
    assert |m1| == |m1.Keys| == |m2|;
    PrevValuesAgree(m1, m2);
    assert Chosen(m1, p.proposal) == Chosen(m2, p.proposal);
  }

  /**
   * The body of `generate_proposal` once `(p, n)` is drawn and the quorum chosen:
   * assert that `n` exceeds the previous number, then set proposal, number and
   * targets, forget all promises and send `PrepareMessage(n)` to each target.
   */
  function StartRound(p: ProposerState, self: Id, proposal: int, number: int, quorum: seq<Id>): (r: Reaction<ProposerState>)
    ensures r.err.None? <==> p.number.None? || number > p.number.value
    ensures r.err.Some? ==> r.err == Some(AssertionError("n > self.number")) && r.state == p && r.outbox == []
    ensures r.err.None? ==>
              && r.state.proposal == Some(proposal) && r.state.number == Some(number)
              && r.state.acceptors == Some(quorum) && r.state.promises == map[]
    ensures r.state.(proposal := p.proposal, number := p.number, acceptors := p.acceptors, promises := p.promises) == p
    ensures r.err.None? ==> r.outbox == LettersTo(self, quorum, PrepareMessage(number))
    ensures r.err.None? ==> CountType(r.outbox, PrepareType) == |quorum|
  {
    if p.number.Some? && !(number > p.number.value) then
      Reaction(p, [], Some(AssertionError("n > self.number")))
    else
      CountLettersTo(self, quorum, PrepareMessage(number), PrepareType);
      Reaction(p.(proposal := Some(proposal), number := Some(number), acceptors := Some(quorum), promises := map[]),
               LettersTo(self, quorum, PrepareMessage(number)), None)
  }

  /** `loop_num % propose_every == 0` (Python raises for a zero cadence). */
  function ShouldPropose(loopNum: nat, proposeEvery: nat): (r: Result<bool, Error>)
    ensures r.Err? <==> proposeEvery == 0
    ensures r.Err? ==> r.error == ZeroDivisionError
    ensures r.Ok? && loopNum < proposeEvery ==> (r.value <==> loopNum == 0)
    ensures r.Ok? && proposeEvery == 1 ==> r.value
  {
    if proposeEvery == 0 then Err(ZeroDivisionError) else Ok(loopNum % proposeEvery == 0)
  }

  /** A `OneShotProposer` proposes on its first iteration and on no other of its first 2**32. */
  lemma OneShotProposesOnce(loopNum: nat)
    requires loopNum < OneShotCadence
    ensures ShouldPropose(loopNum, OneShotCadence) == Ok(true) <==> loopNum == 0
  {
  }

  /* ---------------------------------------------------------------- Processors */

  /** The role-specific fields of a processor, by class. */
  datatype Role =
    | AcceptorRole(acceptor: AcceptorState)
    | ProposerRole(proposer: ProposerState)
    | MonitorRole(monitorLoopNum: nat)

  /** One registered processor: its fields, its liveness flag and its mailbox (a FIFO of letters). */
  datatype Proc = Proc(role: Role, alive: bool, mailbox: seq<Letter>)

  /** `self.__class__.__name__`. */
  function ClassName(r: Role): string {
    match r
    case AcceptorRole(_) => "Acceptor"
    case ProposerRole(p) =>
      (match p.cls
       case PlainProposer => "Proposer"
       case OneShotProposer => "OneShotProposer"
       case SleepyProposer => "SleepyProposer")
    case MonitorRole(_) => "Monitor"
  }

  /** The generator object a processor's role owns, if any. */
  function GenOf(r: Role): set<object> {
    if r.ProposerRole? then {r.proposer.gen} else {}
  }

  function NewAcceptor(): (p: Proc)
    ensures p.alive && p.mailbox == [] && p.role.AcceptorRole?
    ensures p.role.acceptor.highestNumberSeen.None? && AcceptorInv(p.role.acceptor)
  {
    Proc(AcceptorRole(FreshAcceptor), true, [])
  }

  function NewProposer(cls: ProposerClass, gen: IncProposalGenerator, proposeEvery: nat): (p: Proc)
    ensures p.alive && p.mailbox == [] && p.role.ProposerRole? && GenOf(p.role) == {gen}
  {
    Proc(ProposerRole(NewProposerState(cls, gen, proposeEvery)), true, [])
  }

  function NewMonitor(): (p: Proc)
    ensures p.alive && p.mailbox == [] && p.role == MonitorRole(0)
  {
    Proc(MonitorRole(0), true, [])
  }

  /**
   * Calling handler `h` on a processor whose fields are `role`. The handler is
   * picked by message type alone, so a handler written for another class runs
   * on this one and fails at the first field it lacks.
   */
  ghost function React(h: Handler, role: Role, self: Id, m: Message, frm: Id): (r: Reaction<Role>)
    requires Handles(h) == TypeOf(m)
    ensures GenOf(r.state) == GenOf(role)
    ensures r.state.AcceptorRole? == role.AcceptorRole? && r.state.ProposerRole? == role.ProposerRole?
    ensures r.state.ProposerRole? ==> r.state.proposer.loopNum == role.proposer.loopNum
    ensures r.err.Some? ==> r.outbox == []
    ensures CountType(r.outbox, PrepareType) == 0
    ensures h != HandlePrepareMessage ==> CountType(r.outbox, PromiseType) == 0
    ensures h != HandlePromiseMessage && !role.AcceptorRole? ==>
              r == Reaction(role, [], Some(AttributeError(ClassName(role), "highest_number_seen")))
    ensures h == HandlePromiseMessage && !role.ProposerRole? ==>
              r == Reaction(role, [], Some(AttributeError(ClassName(role), "promises")))
    ensures h == HandlePrepareMessage && role.AcceptorRole? ==>
              var res := OnPrepare(role.acceptor, m.number);
              r == Reaction(AcceptorRole(res.0), if res.1.Some? then [Letter(self, frm, res.1.value)] else [], None)
    ensures h == HandleAcceptMessage && role.AcceptorRole? ==>
              r == Reaction(AcceptorRole(OnAccept(role.acceptor, m.number, m.proposal)), [], None)
    ensures h == HandlePromiseMessage && role.ProposerRole? ==>
              var res := OnPromise(role.proposer, self, frm, m);
              r == Reaction(ProposerRole(res.state), res.outbox, res.err)
  {
    match h
    case HandlePrepareMessage =>
      (match role
       case AcceptorRole(a) =>
         var (a', reply) := OnPrepare(a, m.number);
         Reaction(AcceptorRole(a'), if reply.Some? then [Letter(self, frm, reply.value)] else [], None)
       case _ => Reaction(role, [], Some(AttributeError(ClassName(role), "highest_number_seen"))))
    case HandleAcceptMessage =>
      (match role
       case AcceptorRole(a) => Reaction(AcceptorRole(OnAccept(a, m.number, m.proposal)), [], None)
       case _ => Reaction(role, [], Some(AttributeError(ClassName(role), "highest_number_seen"))))
    case HandlePromiseMessage =>
      (match role
       case ProposerRole(p) =>
         var r := OnPromise(p, self, frm, m);
         Reaction(ProposerRole(r.state), r.outbox, r.err)
       case _ => Reaction(role, [], Some(AttributeError(ClassName(role), "promises"))))
  }
}
