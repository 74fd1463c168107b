/**
 * paxos_asyncio/coordinator.py: the registry of processors, letter routing
 * under message loss, quorum selection and the convergence verdict.
 */
module Coordinator {
  import opened Wrappers
  import opened Messages
  import opened Participants
  import Util

  /** The four ANSI colours handed out by `register` (red, magenta, blue, green). */
  datatype Color = Red | Magenta | Blue | Green

  const Palette: seq<Color> := [Red, Magenta, Blue, Green]

  /*
   * The fault injector is modelled as the sequence of its future answers,
   * fixed in advance: every sequence is a fault pattern. Each question takes
   * the next answer; an exhausted sequence answers "no fault".
   */
  function Draw(s: seq<bool>): bool {
    |s| > 0 && s[0]
  }

  function Rest(s: seq<bool>): seq<bool> {
    if |s| > 0 then s[1..] else []
  }

  /** The registry and the answers still to come to "lose this letter?". */
  datatype Net = Net(procs: seq<Proc>, lossDraws: seq<bool>)

  /** The state after a step, and the error it raised, if any (the state is then the one at the raise). */
  datatype Outcome = Outcome(net: Net, err: Option<Error>)

  /** Only mailboxes change, and each only by letters added at its tail. */
  ghost predicate MailboxesGrow(before: seq<Proc>, after: seq<Proc>) {
    && |after| == |before|
    && forall j :: 0 <= j < |before| ==>
         && after[j].role == before[j].role
         && after[j].alive == before[j].alive
         && before[j].mailbox <= after[j].mailbox
  }

  /** `send_letter`: consult the loss draw; if kept, append the letter to `processors[letter.to].mailbox`. */
  function Deliver(n: Net, l: Letter): (o: Outcome)
    ensures o.net.lossDraws == Rest(n.lossDraws)
    ensures MailboxesGrow(n.procs, o.net.procs)
    ensures o.err.Some? ==> o.err == Some(IndexError) && o.net.procs == n.procs
    ensures o.err.Some? <==> !Draw(n.lossDraws) && l.to >= |n.procs|
    ensures Draw(n.lossDraws) ==> o.net.procs == n.procs
    ensures !Draw(n.lossDraws) && l.to < |n.procs| ==>
              o.net.procs[l.to].mailbox == n.procs[l.to].mailbox + [l]
              && forall j :: 0 <= j < |n.procs| && j != l.to ==> o.net.procs[j] == n.procs[j]
  {
    var lost := Draw(n.lossDraws);
    var n1 := n.(lossDraws := Rest(n.lossDraws));
    if lost then
      Outcome(n1, None)
    else if l.to < |n.procs| then
      var target := n.procs[l.to];
      Outcome(n1.(procs := n.procs[l.to := target.(mailbox := target.mailbox + [l])]), None)
    else
      Outcome(n1, Some(IndexError))
  }

  /** The letters sent one after the other; the first error stops the rest. */
  function SendAll(n: Net, ls: seq<Letter>): (o: Outcome)
    ensures MailboxesGrow(n.procs, o.net.procs)
    ensures o.err.Some? ==> o.err == Some(IndexError)
    decreases |ls|
  {
    if ls == [] then
      Outcome(n, None)
    else
      var o := Deliver(n, ls[0]);
      if o.err.Some? then o else SendAll(o.net, ls[1..])
  }

  /** A mailbox gains at most the letters sent, type by type, and loses none. */
  lemma {:induction false} SendAllCounts(n: Net, ls: seq<Letter>, j: nat, ty: MessageType)
    requires j < |n.procs|
    ensures var after := SendAll(n, ls).net.procs[j].mailbox;
            CountType(n.procs[j].mailbox, ty) <= CountType(after, ty) <= CountType(n.procs[j].mailbox, ty) + CountType(ls, ty)
    decreases |ls|
  {
    var before := n.procs[j].mailbox;
    if ls != [] {
      var o := Deliver(n, ls[0]);
      var mid := o.net.procs[j].mailbox;
      // Deliver adds at most ls[0] to this mailbox
      assert mid == before || mid == before + [ls[0]];
      CountTypeAppend(before, [ls[0]], ty);
      assert CountType([ls[0]], ty) == if TypeOf(ls[0].message) == ty then 1 else 0;
      if o.err.None? {
        SendAllCounts(o.net, ls[1..], j, ty);
      }
    }
  }

  /* ---------------------------------------------------------------- acceptors and quorums */

  /** `_get_acceptors(exclude)`, by id: every registered Acceptor not excluded, dead or alive, in registration order. */
  function AcceptorIds(ps: seq<Proc>, exclude: set<Id>): (r: seq<Id>)
    ensures forall i :: 0 <= i < |r| ==> r[i] < |ps| && ps[r[i]].role.AcceptorRole? && r[i] !in exclude
    ensures forall i, j :: 0 <= i < j < |r| ==> r[i] < r[j]
    ensures forall k :: IsAcceptor(ps, k) && k !in exclude ==> k in r
    decreases |ps|
  {
    if ps == [] then
      []
    else
      var last := |ps| - 1;
      var front := AcceptorIds(ps[..last], exclude);
      assert forall i :: 0 <= i < |front| ==> ps[front[i]] == ps[..last][front[i]];
      assert forall k :: 0 <= k < last ==> ps[k] == ps[..last][k];
      front + (if ps[last].role.AcceptorRole? && last !in exclude then [last] else [])
  }

  /** Two registries with acceptors at the same places have the same acceptor ids. */
  lemma {:induction false} AcceptorIdsFrame(ps: seq<Proc>, qs: seq<Proc>, exclude: set<Id>)
    requires |ps| == |qs|
    requires forall k :: 0 <= k < |ps| ==> ps[k].role.AcceptorRole? == qs[k].role.AcceptorRole?
    ensures AcceptorIds(ps, exclude) == AcceptorIds(qs, exclude)
    decreases |ps|
  {
    if ps != [] {
      var last := |ps| - 1;
      AcceptorIdsFrame(ps[..last], qs[..last], exclude);
    }
  }

  /** The sample size of `get_quorum_of_acceptor_ids`: `n` clamped to `[int(0.5*n + 1), n]`. */
  function QuorumSize(n: nat): (r: nat)
    ensures r <= n
    ensures n >= 1 ==> n / 2 + 1 <= r && 2 * r > n
  {
    var minNum := n / 2 + 1;
    var maxNum := n;
    var num := n;
    var atLeast := if minNum > num then minNum else num;
    if maxNum < atLeast then maxNum else atLeast
  }

  /** The clamp leaves the initial size `n` in place: a quorum takes all `n` acceptors, more than half of them when `n >= 1`. */
  lemma QuorumSizeBounds(n: nat)
    ensures QuorumSize(n) == n
    ensures n >= 1 ==> n / 2 + 1 <= QuorumSize(n) && 2 * QuorumSize(n) > n
  {
  }

  lemma SubMultisetOfSameSize(q: seq<Id>, all: seq<Id>)
    requires multiset(q) <= multiset(all) && |q| == |all|
    ensures multiset(q) == multiset(all)
  {
    var d := multiset(all) - multiset(q);
    assert multiset(all) == multiset(q) + d;
    assert |multiset(all)| == |all| && |multiset(q)| == |q|;
    assert |multiset(q) + d| == |multiset(q)| + |d|;
    assert |d| == 0;
  }

  lemma SubsetCard(a: set<Id>, b: set<Id>)
    requires a <= b
    ensures |a| <= |b|
  {
    assert b == a + (b - a);
  }

  lemma {:induction false} DisjointUnionCard(a: set<Id>, b: set<Id>)
    requires a * b == {}
    ensures |a + b| == |a| + |b|
    decreases |a|
  {
    if a != {} {
      var x :| x in a;
      var a' := a - {x};
      DisjointUnionCard(a', b);
      assert a + b == (a' + b) + {x};
      assert x !in a' + b;
    }
  }

  /** Any two sets of acceptors each holding more than half of them share a member. */
  lemma QuorumsIntersect(all: set<Id>, q1: set<Id>, q2: set<Id>)
    requires q1 <= all && q2 <= all
    requires 2 * |q1| > |all| && 2 * |q2| > |all|
    ensures q1 * q2 != {}
  {
    if q1 * q2 == {} {
      DisjointUnionCard(q1, q2);
      SubsetCard(q1 + q2, all);
      assert false;
    }
  }

  /* ---------------------------------------------------------------- convergence verdict */

  /** `x.accepted_value for x in acceptors`. */
  function AcceptedValues(ps: seq<Proc>, ids: seq<Id>): (r: seq<Option<int>>)
    requires forall i :: 0 <= i < |ids| ==> ids[i] < |ps| && ps[ids[i]].role.AcceptorRole?
    ensures |r| == |ids|
  {
    seq(|ids|, i requires 0 <= i < |ids| => ps[ids[i]].role.acceptor.acceptedValue)
  }

  /** `any(x.alive for x in acceptors)`. */
  predicate AnyAlive(ps: seq<Proc>, ids: seq<Id>)
    requires forall i :: 0 <= i < |ids| ==> ids[i] < |ps|
  {
    exists i :: 0 <= i < |ids| && ps[ids[i]].alive
  }

  /**
   * What `report_accepted` returns: `Ok(true)` while the run should go on, `Ok(false)` once every
   * acceptor holds the first acceptor's non-None value or no acceptor is alive; `acceptors[0]`
   * raises when none is registered.
   */
  function Verdict(ps: seq<Proc>): (r: Result<bool, Error>)
    ensures r.Err? ==> r == Err(IndexError)
    ensures r.Err? <==> forall k :: !IsAcceptor(ps, k)
  {
    var ids := AcceptorIds(ps, {});
    if |ids| == 0 then
      Err(IndexError)
    else
      assert IsAcceptor(ps, ids[0]);
      var vals := AcceptedValues(ps, ids);
      var done := vals[0].Some? && Util.AllSame(vals);
      var done' := done || !AnyAlive(ps, ids);
      Ok(!done')
  }

  predicate IsAcceptor(ps: seq<Proc>, k: int) {
    0 <= k < |ps| && ps[k].role.AcceptorRole?
  }

  /** Every acceptor holds the accepted value `v`. */
  ghost predicate AllAccepted(ps: seq<Proc>, v: int) {
    forall k :: IsAcceptor(ps, k) ==> ps[k].role.acceptor.acceptedValue == Some(v)
  }

  /** No acceptor is alive. */
  ghost predicate NoneAlive(ps: seq<Proc>) {
    forall k :: IsAcceptor(ps, k) ==> !ps[k].alive
  }

  /**
   * The verdict in terms of the registry itself: it raises iff no acceptor is registered,
   * and says "done" iff all acceptors share one non-None accepted value or none of them is alive.
   */
  lemma VerdictIff(ps: seq<Proc>)
    ensures Verdict(ps).Err? <==> forall k :: !IsAcceptor(ps, k)
    ensures Verdict(ps) == Ok(false) <==>
              (exists k :: IsAcceptor(ps, k)) && ((exists v :: AllAccepted(ps, v)) || NoneAlive(ps))
  {
    var ids := AcceptorIds(ps, {});
    if |ids| > 0 {
      assert IsAcceptor(ps, ids[0]);
      var vals := AcceptedValues(ps, ids);
      if vals[0].Some? && Util.AllSame(vals) {
        var v := vals[0].value;
        forall k | IsAcceptor(ps, k) ensures ps[k].role.acceptor.acceptedValue == Some(v) {
          var i :| 0 <= i < |ids| && ids[i] == k;
          assert vals[i] == vals[0];
        }
        assert AllAccepted(ps, v);
      }
      if exists v :: AllAccepted(ps, v) {
        var v :| AllAccepted(ps, v);
        forall i | 0 <= i < |vals| ensures vals[i] == Some(v) {
          assert IsAcceptor(ps, ids[i]);
        }
        assert vals[0].Some? && Util.AllSame(vals);
      }
      if !AnyAlive(ps, ids) {
        forall k | IsAcceptor(ps, k) ensures !ps[k].alive {
          var i :| 0 <= i < |ids| && ids[i] == k;
        }
      } else {
        var i :| 0 <= i < |ids| && ps[ids[i]].alive;
        assert IsAcceptor(ps, ids[i]);
      }
    }
  }

  /** While some acceptor is alive and two acceptors hold different accepted values, the run goes on. */
  lemma DisagreementKeepsRunning(ps: seq<Proc>, i: nat, j: nat, l: nat)
    requires IsAcceptor(ps, i) && IsAcceptor(ps, j) && IsAcceptor(ps, l) && ps[l].alive
    requires ps[i].role.acceptor.acceptedValue != ps[j].role.acceptor.acceptedValue
    ensures Verdict(ps) == Ok(true)
  {
    VerdictIff(ps);
  }

  /** The verdict reads only the acceptors: changing any other processor leaves it as it was. */
  lemma VerdictFrame(ps: seq<Proc>, k: nat, p: Proc)
    requires k < |ps| && !ps[k].role.AcceptorRole? && !p.role.AcceptorRole?
    ensures Verdict(ps[k := p]) == Verdict(ps)
  {
    var qs := ps[k := p];
    AcceptorIdsFrame(ps, qs, {});
    var ids := AcceptorIds(ps, {});
    forall i | 0 <= i < |ids| ensures qs[ids[i]] == ps[ids[i]] {
      assert ids[i] != k;
    }
    SameAcceptors(ps, qs, ids);
  }

  /** Registries that agree on the listed acceptors report the same values and liveness for them. */
  lemma SameAcceptors(ps: seq<Proc>, qs: seq<Proc>, ids: seq<Id>)
    requires forall i :: 0 <= i < |ids| ==> ids[i] < |ps| && ids[i] < |qs| && ps[ids[i]].role.AcceptorRole?
    requires forall i :: 0 <= i < |ids| ==> qs[ids[i]] == ps[ids[i]]
    ensures AcceptedValues(qs, ids) == AcceptedValues(ps, ids)
    ensures AnyAlive(qs, ids) == AnyAlive(ps, ids)
  {
  }

  /* ---------------------------------------------------------------- the coordinator object */

  /**
   * `Coordinator`: the append-only list of processors (an id is an index into it),
   * together with the fault injector's pending answers.
   */
  class Coordinator {
    var processors: seq<Proc>
    var lossDraws: seq<bool>
    var deathDraws: seq<bool>

    function State(): Net
      reads this
    {
      Net(processors, lossDraws)
    }

    constructor (losses: seq<bool>, deaths: seq<bool>)
      ensures processors == [] && lossDraws == losses && deathDraws == deaths
    {
      processors, lossDraws, deathDraws := [], losses, deaths;
    }

    /** `register`: append the processor; its id is its index, its colour cycles through the palette. */
    method Register(p: Proc) returns (id: Id, color: Color)
      modifies this
      ensures processors == old(processors) + [p]
      ensures id == |old(processors)| && processors[id] == p
      ensures color == Palette[id % |Palette|]
      ensures lossDraws == old(lossDraws) && deathDraws == old(deathDraws)
    {
      processors := processors + [p];
      id := |processors| - 1;
      color := Palette[id % |Palette|];
    }

    /** `send_letter`: drop the letter, changing no mailbox, or append it to the recipient's mailbox alone. */
    method SendLetter(l: Letter) returns (err: Option<Error>)
      modifies this
      ensures Outcome(State(), err) == Deliver(old(State()), l)
      ensures lossDraws == Rest(old(lossDraws)) && deathDraws == old(deathDraws)
      ensures Draw(old(lossDraws)) ==> err.None? && processors == old(processors)
      ensures !Draw(old(lossDraws)) && l.to < |old(processors)| ==>
                err.None? &&
                processors == old(processors)[l.to := old(processors)[l.to].(mailbox := old(processors)[l.to].mailbox + [l])]
      ensures !Draw(old(lossDraws)) && l.to >= |old(processors)| ==> err == Some(IndexError) && processors == old(processors)
    {
      var lost := Draw(lossDraws);
      lossDraws := Rest(lossDraws);
      if lost {
        err := None;
      } else if l.to < |processors| {
        var target := processors[l.to];
        processors := processors[l.to := target.(mailbox := target.mailbox + [l])];
        err := None;
      } else {
        err := Some(IndexError);
      }
    }

    /** `chaos_monkey_should_die`, answered from the pending death draws. */
    method ShouldDie() returns (die: bool)
      modifies this
      ensures die == Draw(old(deathDraws)) && deathDraws == Rest(old(deathDraws))
      ensures processors == old(processors) && lossDraws == old(lossDraws)
    {
      die := Draw(deathDraws);
      deathDraws := Rest(deathDraws);
    }

    /**
     * `get_quorum_of_acceptor_ids`: `random.sample` of the clamped size from the
     * non-excluded acceptors, which is some ordering of all of them.
     */
    method GetQuorumOfAcceptorIds(exclude: set<Id>) returns (q: seq<Id>)
      ensures multiset(q) == multiset(AcceptorIds(processors, exclude))
      ensures |q| == |AcceptorIds(processors, exclude)|
      ensures forall i :: 0 <= i < |q| ==> IsAcceptor(processors, q[i]) && q[i] !in exclude
      ensures forall i, j :: 0 <= i < j < |q| ==> q[i] != q[j]
    {
      var acceptors := AcceptorIds(processors, exclude);
      var num := QuorumSize(|acceptors|);
      QuorumSizeBounds(|acceptors|);
      q :| |q| == num && multiset(q) <= multiset(acceptors);
      SubMultisetOfSameSize(q, acceptors);
      forall i | 0 <= i < |q| ensures IsAcceptor(processors, q[i]) && q[i] !in exclude {
        assert q[i] in multiset(acceptors);
      }
      PermutationOfSortedIsDistinct(q, acceptors);
    }

    /** `report_accepted` (without its status logging): reads the processors and changes nothing. */
    method ReportAccepted() returns (r: Result<bool, Error>)
      ensures r == Verdict(processors)
    {
      var acceptors := AcceptorIds(processors, {});
      if |acceptors| == 0 {
        return Err(IndexError);
      }
      var vals := AcceptedValues(processors, acceptors);
      var done := vals[0].Some?;
      if done {
        done := Util.AllEqual(vals);
      }
      done := done || !AnyAlive(processors, acceptors);
      r := Ok(!done);
    }
  }

  /** A reordering of a strictly increasing sequence repeats no value. */
  lemma PermutationOfSortedIsDistinct(q: seq<Id>, s: seq<Id>)
    requires multiset(q) == multiset(s)
    requires forall i, j :: 0 <= i < j < |s| ==> s[i] < s[j]
    ensures forall i, j :: 0 <= i < j < |q| ==> q[i] != q[j]
  {
    forall i, j | 0 <= i < j < |q| ensures q[i] != q[j] {
      if q[i] == q[j] {
        DuplicateCount(q, i, j);
        assert q[i] in multiset(s);
        var k :| 0 <= k < |s| && s[k] == q[i];
        SortedCount(s, k);
        assert false;
      }
    }
  }

  /** A value at two positions occurs at least twice. */
  lemma DuplicateCount(q: seq<Id>, i: nat, j: nat)
    requires i < j < |q| && q[i] == q[j]
    ensures multiset(q)[q[i]] >= 2
  {
    assert q == q[..i] + [q[i]] + q[i + 1..j] + [q[j]] + q[j + 1..];
  }

  /** In a strictly increasing sequence every value occurs once. */
  lemma {:induction false} SortedCount(s: seq<Id>, k: nat)
    requires forall i, j :: 0 <= i < j < |s| ==> s[i] < s[j]
    requires k < |s|
    ensures multiset(s)[s[k]] == 1
    decreases |s|
  {
    var last := |s| - 1;
    assert s == s[..last] + [s[last]];
    if k < last {
      SortedCount(s[..last], k);
      assert s[..last][k] == s[k];
    } else {
      assert s[last] !in s[..last];
    }
  }
}
