# paxos_asyncio in Dafny

A model of `paxos_asyncio`, a simulation of single-decree Paxos (Lamport, "Paxos Made
Simple", section 2.2). Proposers, acceptors and a monitor exchange Prepare, Promise and
Accept letters through a coordinator, while a fault injector loses letters and kills
processors.

The model follows the package `paxos_asyncio/`, and the table cites it. Two earlier copies
repeat the same logic: `paxos_asyncio/__init__.py` (the coordinator at lines 53-110, the
processors at 113-285) and the single file `paxos_asyncio.py` (the coordinator at 58-115,
the generator and processors at 123-371). The same members model them.

Files and modules:

- `wrappers.dfy` (`Wrappers`): `Option` and `Result`.
- `util.dfy` (`Util`): `all_equal`, as a loop proved against the predicate `AllSame`.
- `process_generator.dfy` (`ProcessGenerator`): `IncProposalGenerator` is a class with
  the counter `x`. `Proposals` is the reference list of what successive calls return.
- `messages.dfy` (`Messages`): the message records and `Letter`. It also holds the
  handler table that `message_handler_decorator` fills, the singledispatch lookup, and
  the errors a processor can raise.
- `participants.dfy` (`Participants`): the fields of each processor class. Each handler
  is a function from those fields to a `Reaction`: the new fields, the letters sent in
  order, and the error raised, if any. The acceptor invariant and the proposer's
  phase-2 rule are proved here.
- `coordinator.dfy` (`Coordinator`): the class `Coordinator` holds the registry
  `processors` and the pending fault-injector answers. Beside it are the pure
  specification functions `Deliver` and `SendAll` (letter routing), `AcceptorIds`
  (`_get_acceptors`), `QuorumSize` and `Verdict` (`report_accepted`).
- `actors.dfy` (`Actors`): the `Processor` methods as imperative methods on the
  coordinator's registry. A processor is named by its id, and its fields live in
  `c.processors[id]`. Each method's contract ties its outcome to a specification
  function or predicate of the state it started in:
  - a handler's outcome equals `AfterReaction` of its `React`;
  - one turn of the mailbox loop equals `MailboxStep`, and `ProcessMailbox` equals `DrainAll`;
  - `ActionLoop` satisfies `ActionEffect`;
  - `MonitorTick` equals `Tick`, and `MonitorRun` satisfies `MonitorEffect`;
  - `RunStep` satisfies `Iteration`, and `Run` produces a chain of `Iteration`s.

How the model treats the parts it cannot run:

- **Faults.** `chaos_monkey_should_lose_message` and `chaos_monkey_should_die` are
  answered from two boolean sequences held by the coordinator, `lossDraws` and
  `deathDraws`. Any fault pattern is one choice of these sequences. An exhausted
  sequence answers "no fault". `fuzz` is a no-op.
- **Exceptions.** A raised exception becomes an `Option<Error>` result. The registry is
  specified exactly as it stood at the raise.
- **`random.sample`.** The quorum is some sequence whose multiset equals the non-excluded
  acceptor ids. It is proved to be a repetition-free reordering of them.

The model does what the code does, including where the code departs from textbook Paxos:

- Phase 2 fires when the number of distinct promise senders *equals*
  `ceil(0.5*len(acceptors))`. That is only half of the targets, not a majority, when
  their number is even (`ThresholdMajorityIffOdd`).
- The phase-2 value is the largest `prev_acc_value`, not the value of the
  highest-numbered earlier acceptance (`Chosen`).
- A Promise is not checked against the current round (`PromiseNumberIgnored`).
- Phase 2 can fire twice in one round. A sender already in `promises` does not change its size, so a second Promise from it while the count stands at the threshold sends the Accepts again. This happens when a stale Promise from the previous round is stored after `promises` is emptied (`RefireOnRepeatedSender`).
- The handler table is shared by all processor classes. A letter of any type is handled
  by whichever class receives it, and a handler meant for another class fails with an
  `AttributeError` (`React`).
- Quorums and the verdict include dead acceptors. The verdict is "done" when *every*
  registered acceptor, dead or alive, holds the same non-None value, or when no acceptor
  is alive.

## Model

| member | source | states |
|---|---|---|
| ProcessGenerator.IncProposalGenerator.GetProposal | paxos_asyncio/process_generator.py:18-21 | returns `(x, x)` as value and number, then the counter advances by exactly 1000 and nothing else changes |
| ProcessGenerator.IncProposalGenerator.constructor | paxos_asyncio/process_generator.py:15-16 | the counter starts at the seed |
| ProcessGenerator.Proposals | paxos_asyncio/process_generator.py:15-21 | `k` successive calls return `k` pairs, and the first call returns `(seed, seed)` |
| ProcessGenerator.ProposalsSnoc | paxos_asyncio/process_generator.py:18-21 | call number `k` (from 0) appends `seed + 1000*k` as both value and number to the list of the first `k` |
| ProcessGenerator.TakeProposals | paxos_asyncio/process_generator.py:18-21 | `k` calls of `get_proposal` in a row return exactly `Proposals` of the starting counter and advance it by `1000*k` |
| ProcessGenerator.ProposalsAt | paxos_asyncio/process_generator.py:18-20 | call number `i` (from 0) returns `seed + 1000*i` as both value and number |
| ProcessGenerator.ProposalsIncrease | paxos_asyncio/process_generator.py:18-21 | the numbers from one generator strictly increase from call to call |
| ProcessGenerator.ProposalsKeepResidue | paxos_asyncio/process_generator.py:16-20 | every number is congruent to the seed modulo 1000 |
| ProcessGenerator.DisjointSeeds | paxos_asyncio/process_generator.py:16-20 | two generators whose seeds differ modulo 1000 never return the same number |
| Util.AllEqual | paxos_asyncio/util.py:15-24 | true iff every element equals the first, which is the same as all elements pairwise equal; true for an empty sequence |
| Util.AllSameShort | paxos_asyncio/util.py:17-24 | a sequence of zero or one elements is all-equal |
| Util.AllSameFirstMismatch | paxos_asyncio/util.py:19-22 | the first element that differs from the first decides false; every shorter prefix is all-equal |
| Messages.LettersTo | paxos_asyncio/participants.py:102-103 | a broadcast is one letter per target, in target order, each from the sender and carrying the message unchanged |
| Messages.CountLettersTo | paxos_asyncio/participants.py:119-120 | a broadcast of one message holds letters of that message's type only, one per target |
| Messages.CountTypeAppend | paxos_asyncio/message.py:25-30 | letters of each type add up over concatenated mailboxes |
| Messages.Dispatch | paxos_asyncio/message.py:29 | the lookup finds a handler iff the message type is registered, and that handler is annotated with that type |
| Messages.Register | paxos_asyncio/message.py:46-49 | registration files the handler under the type of its `msg` parameter and leaves every other type's entry as it was |
| Messages.SharedTable | paxos_asyncio/message.py:39 | the one table on the base class, filled by the three decorated handlers, maps each type to a handler of that type |
| Messages.SharedTableTotal | paxos_asyncio/participants.py:48-91 | once the acceptor and proposer classes are defined, every message type reaches a handler, whatever class receives it |
| Participants.OnPrepare | paxos_asyncio/participants.py:49-60 | promises iff no number was seen or the number is higher; a promise sets `highest_number_seen` to the number and replies with a Promise carrying the pair accepted before the call; otherwise state unchanged and nothing sent; `highest_number_seen` never decreases |
| Participants.OnAccept | paxos_asyncio/participants.py:63-67 | at a number equal to `highest_number_seen` the accepted pair is set together; otherwise nothing changes; `highest_number_seen` is never changed |
| Participants.FreshAcceptorInv | paxos_asyncio/participants.py:42-46 | a new acceptor satisfies the invariant |
| Participants.PrepareKeepsInv | paxos_asyncio/participants.py:51-53 | a Prepare keeps the invariant: the pair is set together, and `accepted_number` is at most `highest_number_seen` |
| Participants.AcceptKeepsInv | paxos_asyncio/participants.py:64-67 | an Accept keeps the same invariant |
| Participants.AcceptIdempotent | paxos_asyncio/participants.py:64-67 | applying the same Accept twice equals applying it once |
| Participants.PrepareThenAccept | paxos_asyncio/participants.py:51-67 | an Accept at the number just promised is accepted |
| Participants.NoPromiseAtOrBelowAccepted | paxos_asyncio/participants.py:51-52 | after accepting at `k`, no Prepare numbered `k` or lower is promised |
| Participants.PreparesMonotone | paxos_asyncio/participants.py:51-53 | over any series of Prepares, `highest_number_seen` never decreases, ends at or above every number seen, and is always the start value or one of them |
| Participants.Threshold | paxos_asyncio/participants.py:94 | `ceil(0.5*n)`: twice the threshold is `n` or `n + 1` |
| Participants.ThresholdMajorityIffOdd | paxos_asyncio/participants.py:94 | `ceil(0.5*n)` is at most `n`, at least 1 for `n >= 1`, and a strict majority exactly when `n` is odd |
| Participants.MaxOf | paxos_asyncio/participants.py:95-98 | the result is a member of the set and not below any member |
| Participants.Chosen | paxos_asyncio/participants.py:95-98 | the value is the largest non-None `prev_acc_value` among the stored promises, or the own proposal when none has one |
| Participants.OnPromise | paxos_asyncio/participants.py:92-103 | the promise is stored under its sender, overwriting an earlier one; no field other than `promises` and `v` changes; without a round it fails `self.acceptors is not None`; with one, it raises iff the sender count equals the threshold and the number or the chosen value is None (failing `self.number is not None` or `self.v is not None`, in that order); `v` becomes `Chosen` at the threshold and stays otherwise; an error sends nothing; the handler never sends a Prepare or Promise |
| Participants.PhaseTwoAtThreshold | paxos_asyncio/participants.py:94-103 | Accepts are sent iff the number of distinct senders equals the threshold, a number is set and a value exists; they are `Accept(number, v)` to every target in order, with `v` given by `Chosen` |
| Participants.PromiseBeforeRound | paxos_asyncio/participants.py:92-93 | a Promise before any round fails the assertion `self.acceptors is not None` |
| Participants.NoRefireOnNewSender | paxos_asyncio/participants.py:92-94 | once the threshold is reached, a Promise from a new sender is stored but sends nothing |
| Participants.RefireOnRepeatedSender | paxos_asyncio/participants.py:92-94 | when the count already stands at the threshold, a Promise from a sender already stored sends the Accepts again |
| Participants.PrevValuesAgree | paxos_asyncio/participants.py:95-97 | the candidate values depend only on the senders and their `prev_acc_value`s |
| Participants.PromiseNumberIgnored | paxos_asyncio/participants.py:92-103 | the Promise's own `number` has no effect on what the handler sends or raises |
| Participants.StartRound | paxos_asyncio/participants.py:113-120 | the round starts iff there was no number yet or the new one is strictly larger; a failed assertion leaves every field as it was and sends nothing; a started round sets `proposal`, `number` and `acceptors` (the quorum), empties `promises`, leaves every other field, and sends `PrepareMessage(number)` to each quorum member in order |
| Participants.ShouldPropose | paxos_asyncio/participants.py:107 | raises `ZeroDivisionError` iff the cadence is zero; below the cadence only iteration 0 proposes; a cadence of 1 proposes every time |
| Participants.OneShotProposesOnce | paxos_asyncio/participants.py:123-127 | with cadence 2**32, of the first 2**32 iterations only the first proposes |
| Participants.NewAcceptor | paxos_asyncio/participants.py:42-46 | a new acceptor is alive with an empty mailbox, has seen no number, and satisfies the acceptor invariant |
| Participants.NewProposerState | paxos_asyncio/participants.py:75-86 | a new proposer holds its generator, starts at `loop_num` 0 with no proposal, number, targets, promises or `v`; its cadence is the given one, or 2**32 for a `OneShotProposer` |
| Participants.NewProposer | paxos_asyncio/participants.py:15-19 | a new proposer is alive with an empty mailbox and owns exactly its generator |
| Participants.NewMonitor | paxos_asyncio/participants.py:153-155 | a new monitor is alive with an empty mailbox and `loop_num` 0 |
| Participants.React | paxos_asyncio/message.py:29-30 | a Prepare or Accept handler run on a non-acceptor, or the Promise handler run on a non-proposer, fails with `AttributeError` naming the missing field and changes nothing; on the right class the reaction is exactly `OnPrepare` (with the reply sent to the sender), `OnAccept` or `OnPromise`; the class of the receiver and its generator stay; no handler sends a Prepare, and only the Prepare handler sends a Promise |
| Coordinator.Deliver | paxos_asyncio/coordinator.py:31-36 | one loss draw is used up; a lost letter changes no mailbox; a kept letter is appended to its recipient's mailbox and no other processor changes; `IndexError` is raised exactly when a kept letter names an id out of range, with the registry unchanged |
| Coordinator.SendAll | paxos_asyncio/participants.py:119-120 | letters sent in a row only grow mailboxes at their tails, and only an `IndexError` can stop them |
| Coordinator.SendAllCounts | paxos_asyncio/coordinator.py:31-36 | a mailbox gains at most the letters of each type that were sent, and loses none |
| Coordinator.AcceptorIds | paxos_asyncio/coordinator.py:38-43 | the ids of all acceptors not excluded, dead ones included, in registration order, each once |
| Coordinator.AcceptorIdsFrame | paxos_asyncio/coordinator.py:41-43 | the acceptor list depends only on which processors are acceptors |
| Coordinator.QuorumSize | paxos_asyncio/coordinator.py:49-52 | the size never exceeds the acceptor count and, when there is an acceptor, is at least `floor(n/2)+1`, a strict majority |
| Coordinator.QuorumSizeBounds | paxos_asyncio/coordinator.py:49-52 | the clamp between `floor(n/2)+1` and `n` leaves the size at `n`, which is more than half when `n >= 1` |
| Coordinator.QuorumsIntersect | paxos_asyncio/coordinator.py:49-53 | any two sets holding more than half of the same acceptors share a member |
| Coordinator.SubMultisetOfSameSize | paxos_asyncio/coordinator.py:53 | a sample as large as its population is a reordering of all of it |
| Coordinator.PermutationOfSortedIsDistinct | paxos_asyncio/coordinator.py:53 | a reordering of the acceptor ids repeats no id |
| Coordinator.Verdict | paxos_asyncio/coordinator.py:66-69 | `acceptors[0]` raises `IndexError` exactly when no acceptor is registered, and that is the only error |
| Coordinator.VerdictIff | paxos_asyncio/coordinator.py:66-69 | raises iff no acceptor is registered; returns False ("done") iff all acceptors hold one non-None value or none is alive |
| Coordinator.DisagreementKeepsRunning | paxos_asyncio/coordinator.py:66-69 | two acceptors with different accepted values and one live acceptor keep the run going |
| Coordinator.VerdictFrame | paxos_asyncio/coordinator.py:55-69 | the verdict reads only the acceptors, so changing another processor leaves it as it was |
| Coordinator.SameAcceptors | paxos_asyncio/coordinator.py:66-68 | values and liveness are read from the listed acceptors only |
| Coordinator.Coordinator.constructor | paxos_asyncio/coordinator.py:19-21 | the registry starts empty; the fault answers are the given draw sequences |
| Coordinator.Coordinator.Register | paxos_asyncio/coordinator.py:26-29 | appends the processor; its id is the old length, so ids are 0, 1, 2, … and never reused; the colour is `c[id mod 4]` |
| Coordinator.Coordinator.SendLetter | paxos_asyncio/coordinator.py:31-36 | a loss draw drops the letter and changes no processor; otherwise only `processors[letter.to]`'s mailbox changes, by the letter appended at its tail; the result is `Deliver` |
| Coordinator.Coordinator.ShouldDie | paxos_asyncio/participants.py:27 | answers the next death draw and uses it up, touching nothing else |
| Coordinator.Coordinator.GetQuorumOfAcceptorIds | paxos_asyncio/coordinator.py:45-53 | a reordering of all non-excluded acceptor ids: same multiset and length, only acceptors, none excluded, no repeats |
| Coordinator.Coordinator.ReportAccepted | paxos_asyncio/coordinator.py:55-69 | returns `Verdict` of the registry and changes nothing |
| Actors.SendMessageTo | paxos_asyncio/message.py:17-20 | hands the coordinator exactly one letter from the own id to the target, carrying the message unchanged |
| Actors.SendToAll | paxos_asyncio/participants.py:119-120 | one `send_message_to` per target in order; the outcome is `SendAll` of `LettersTo` |
| Actors.HandlePrepare | paxos_asyncio/participants.py:49-60 | the registry after the handler equals its `React` reaction applied to the receiver's fields, then sent |
| Actors.HandleAccept | paxos_asyncio/participants.py:63-67 | the same equation for the Accept handler |
| Actors.ChosenOfValues | paxos_asyncio/participants.py:95-98 | the max-value rule can be computed from the stored messages alone |
| Actors.MaxPrevAcceptedValue | paxos_asyncio/participants.py:95-98 | the loop over the stored promises returns `Chosen` |
| Actors.HandlePromise | paxos_asyncio/participants.py:89-103 | the same equation for the Promise handler, including its three assertions |
| Actors.MailboxStep | paxos_asyncio/message.py:24-39 | one turn pops the oldest letter and leaves the rest of the mailbox at its head; a letter addressed elsewhere fails `letter.to == self.id`; a type with no registered handler would raise the catch-all error naming the type, the receiving class and the sender, and since every type is registered no turn raises it; only the receiver's fields change; every `alive` flag, and the receiver's class and generator, stay |
| Actors.MailboxStepShrinks | paxos_asyncio/message.py:25-30 | each handled letter lowers (Prepares, Promises, letters) of the mailbox lexicographically, so draining terminates |
| Actors.HandleOldest | paxos_asyncio/message.py:27-30 | pops the oldest letter; a letter addressed elsewhere fails the assertion `letter.to == self.id`; dispatch is by message type through the shared table with the letter's sender; an unregistered type raises the catch-all error; the outcome is `MailboxStep` |
| Actors.ProcessMailbox | paxos_asyncio/message.py:24-32 | the outcome is `DrainAll` of the state it started in; it returns without error only when the mailbox is empty; the letters are popped oldest first, each taken from the head of the state before it; the letters in the mailbox at the start are the first ones handled, in arrival order |
| Actors.PrefixAfterPop | paxos_asyncio/message.py:27 | popping the head while the rest only grows keeps arrival order |
| Actors.DrainedExtend | paxos_asyncio/message.py:25-30 | an error-free turn extends the record of handled letters by the popped head |
| Actors.SameShapeStep | paxos_asyncio/message.py:25-30 | the kept facts (length, liveness, the receiver's class and generator) carry across turns |
| Actors.OpenRound | paxos_asyncio/participants.py:115-120 | takes a quorum of all acceptors and the outcome is `StartRound` on it, then sent |
| Actors.BeginRound | paxos_asyncio/participants.py:113-120 | checks that the number increases, then opens the round; the outcome is `StartRound` on some quorum |
| Actors.GenerateProposal | paxos_asyncio/participants.py:111-120 | draws `(x, x)` from the generator and advances it by 1000; the outcome is `StartRound` with that pair on some quorum; when the generator is ahead of the last number, the assertion passes and the new number is `x` |
| Actors.RoundEffect | paxos_asyncio/participants.py:113-118 | starting a round leaves the generator and the iteration count as they were, and a fresh number passes the assertion |
| Actors.CountLoop | paxos_asyncio/participants.py:109 | increments the proposer's `loop_num` and changes nothing else |
| Actors.ActionLoop | paxos_asyncio/participants.py:105-120 | the outcome satisfies `ActionEffect`: a due proposer (`loop_num % propose_every == 0`) draws `(x, x)` and advances its generator by 1000, starts a round with it on some quorum of all acceptors exactly as `StartRound` says, and then increments `loop_num` unless the round raised; a proposer not due only increments `loop_num`; a zero cadence raises `ZeroDivisionError` with nothing changed; other classes change nothing |
| Actors.MonitorTick | paxos_asyncio/participants.py:160-162 | the outcome equals `Tick`: `loop_num` goes up by one; when it reaches a multiple of 10, `alive` becomes the verdict, or the verdict's `IndexError` is raised; nothing else changes |
| Actors.MonitorVerdict | paxos_asyncio/participants.py:162 | the monitor's own fields do not enter the verdict it reads |
| Actors.FirstCheck | paxos_asyncio/participants.py:160-161 | a monitor at count `loopNum` next consults the verdict after between 1 and 10 iterations, on a multiple of 10 |
| Actors.NoCheckBefore | paxos_asyncio/participants.py:161 | no iteration before that one lands on a multiple of 10 |
| Actors.MonitorEffectLive | paxos_asyncio/participants.py:158-162 | a monitor still alive after `t` iterations has only counted them, and is before its first check or saw `Ok(true)` there |
| Actors.MonitorEffectStep | paxos_asyncio/participants.py:158-162 | one more tick of a live monitor extends `MonitorEffect` from `t` to `t + 1` iterations |
| Actors.MonitorEffectStops | paxos_asyncio/participants.py:158 | once the monitor is dead or has raised, further fuel changes nothing |
| Actors.MonitorStep | paxos_asyncio/participants.py:158-162 | one loop iteration of `Monitor.run` takes the outcome from `MonitorEffect` at `t` to `MonitorEffect` at `t + 1` |
| Actors.MonitorRun | paxos_asyncio/participants.py:157-163 | the outcome satisfies `MonitorEffect` for `fuel` iterations: a dead monitor does nothing; a live one counts; at its first multiple of 10 a verdict of False ("done") sets `alive` to false and stops it, an `IndexError` stops it with that error, and True keeps it alive and counting for all of its fuel; only its own processor changes |
| Actors.RunStep | paxos_asyncio/participants.py:27-34 | for a processor other than a monitor, one iteration satisfies `Iteration`: a death draw sets `alive` to false and changes nothing else; otherwise the outcome is `DrainAll` of the mailbox and, unless that raised, `ActionEffect` on the state it left |
| Actors.ExtendWorlds | paxos_asyncio/participants.py:26-34 | appending the state after one more iteration keeps the chain of iterations |
| Actors.Run | paxos_asyncio/participants.py:25-34 | a dead processor does nothing; `alive` is never set back to true; a monitor behaves as `MonitorRun`; otherwise the states before each iteration form a chain of at most `fuel` `Iteration`s, each begun alive, of which only the last may raise; a run that ends alive without error has used all of its fuel |

## Left out

- Randomness and timing: `fuzz`, `random.random()` and the `chaos` settings are not modelled. Loss and death are the draw sequences described above, and `fuzz` is a no-op.
- `asyncio` scheduling. `gather`, the interleaving of tasks at `await` points, and letters arriving in a mailbox while its owner is suspended inside a handler are not modelled. A caller chooses which processor's method runs next; each method runs to completion.
- `SleepyProposer`'s initial `asyncio.sleep`. It is a `ProposerClass` that otherwise behaves as a `Proposer`.
- Actors.Run, Actors.MonitorRun: the loops run forever in the source; here they stop after `fuel` iterations, so nothing is said about runs longer than the fuel. The intermediate states of `Run` are a ghost record, not program state.
- Actors.MonitorRun: `MonitorEffect` assumes that no other processor moves while the monitor runs, so every check sees the verdict of the starting registry. Under `asyncio` other tasks run between its iterations; a verdict that changes between checks is not modelled.
- Logging (`do_log`, `do_coord_log`, `do_sys_log`, `self.log`), the `calc_status` strings in `report_accepted` and the messages' `__str__`: console output only.
- `util.db_on_exception`: an interactive debugger hook.
- `paxos_asyncio/run.py` and `run_paxos`: example wiring that only picks how many actors to start.
- `Learner`: unimplemented. In the package its constructor raises `NotImplementedError` (`paxos_asyncio/participants.py:140-148`). In the two older copies it is a processor that does nothing (`paxos_asyncio/__init__.py:264-270`, `paxos_asyncio.py:339-345`).
- The abstract `ProposalGenerator`. Every proposer holds an `IncProposalGenerator`.
- The `typing.get_type_hints`, `__set_name__` and singledispatch machinery. It is replaced by a table keyed by a message-type datatype, keeping the shared-by-type semantics.
- Actors.ActionLoop: `propose_every` is a natural number. A negative cadence, which Python's floored `%` would accept, is not modelled.
- Coordinator.QuorumSize: `int(0.5*n+1)` is taken as the exact `n/2+1`, without floating point. `ceil(0.5*n)` is likewise taken as `(n+1)/2`. Both agree with the float results for every list length a run can reach.
- `exclude` lists are sets of ids rather than lists of processor objects. The code only ever passes an empty list.
- Global Paxos agreement is not stated. The code does not follow the rules it would need: the threshold, the max-value rule, and unchecked Promise numbers.
