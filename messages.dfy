/**
 * paxos_asyncio/message.py: the protocol messages, the `Letter` envelope,
 * the handler table that `message_handler_decorator` fills and the
 * errors a processor can raise.
 */
module Messages {
  import opened Wrappers

  /** A processor id: its index in the coordinator's registry. */
  type Id = nat

  /** `PrepareMessage`, `PromiseMessage` and `AcceptMessage`. */
  datatype Message =
    | PrepareMessage(number: int)
    | PromiseMessage(number: int, prevAccNumber: Option<int>, prevAccValue: Option<int>)
    | AcceptMessage(number: int, proposal: int)

  /** `Letter(frm, to, message)`: the envelope the coordinator routes. */
  datatype Letter = Letter(frm: Id, to: Id, message: Message)

  /** The Python class of a message, which is what dispatch looks at. */
  datatype MessageType = PrepareType | PromiseType | AcceptType

  function TypeOf(m: Message): MessageType {
    match m
    case PrepareMessage(_) => PrepareType
    case PromiseMessage(_, _, _) => PromiseType
    case AcceptMessage(_, _) => AcceptType
  }

  function TypeName(t: MessageType): string {
    match t
    case PrepareType => "PrepareMessage"
    case PromiseType => "PromiseMessage"
    case AcceptType => "AcceptMessage"
  }

  /** The three decorated handler methods (two on `Acceptor`, one on `Proposer`). */
  datatype Handler = HandlePrepareMessage | HandleAcceptMessage | HandlePromiseMessage

  /** The message type named in a handler's `msg` annotation, under which the decorator registers it. */
  function Handles(h: Handler): MessageType {
    match h
    case HandlePrepareMessage => PrepareType
    case HandleAcceptMessage => AcceptType
    case HandlePromiseMessage => PromiseType
  }

  /** The singledispatch table of `handle_message`: one table, keyed by message type only. */
  type HandlerTable = map<MessageType, Handler>

  /** Every registered type maps to a handler annotated with that type. */
  predicate Coherent(t: HandlerTable) {
    forall ty :: ty in t ==> Handles(t[ty]) == ty
  }

  /** `singledispatch` lookup: the registered handler, or `None` for the catch-all `_handle_message_catch`. */
  function Dispatch(t: HandlerTable, ty: MessageType): (r: Option<Handler>)
    requires Coherent(t)
    ensures r.Some? <==> ty in t
    ensures r.Some? ==> Handles(r.value) == ty
  {
    if ty in t then Some(t[ty]) else None
  }

  /** `message_handler_decorator.__set_name__`: register `h` under the type of its `msg` parameter. */
  function Register(t: HandlerTable, h: Handler): (r: HandlerTable)
    requires Coherent(t)
    ensures Coherent(r)
    ensures Dispatch(r, Handles(h)) == Some(h)
    ensures forall ty :: ty != Handles(h) ==> Dispatch(r, ty) == Dispatch(t, ty)
  {
    t[Handles(h) := h]
  }

  /**
   * The table after the class bodies of `Acceptor` and `Proposer` have run.
   * It lives on the `Processor` base class, so every processor class shares it.
   */
  function SharedTable(): (t: HandlerTable)
    ensures Coherent(t)
  {
    Register(Register(Register(map[], HandlePrepareMessage), HandleAcceptMessage), HandlePromiseMessage)
  }

  /** With the shared table, every message type reaches the handler annotated with it, whatever class receives it. */
  lemma SharedTableTotal(ty: MessageType)
    ensures Dispatch(SharedTable(), ty).Some?
  {
    var t0: HandlerTable := map[];
    var t1 := Register(t0, HandlePrepareMessage);
    var t2 := Register(t1, HandleAcceptMessage);
    var t3 := Register(t2, HandlePromiseMessage);
    assert Dispatch(t3, PromiseType).Some?;
    assert Dispatch(t2, AcceptType).Some?;
    assert Dispatch(t1, PrepareType).Some?;
  }

  /** The exceptions a processor's task can die of. */
  datatype Error =
    | NoHandler(messageType: string, className: string, sender: Id)  // `_handle_message_catch`
    | AttributeError(className: string, attribute: string)            // a handler run on a class without its fields
    | AssertionError(condition: string)                               // a failed `assert`
    | IndexError                                                       // `processors[letter.to]`, `acceptors[0]`
    | ZeroDivisionError                                                // `loop_num % propose_every` with 0

  /** `_handle_message_catch`: the error names the message type, the receiving class and the sender. */
  function CatchAll(m: Message, className: string, frm: Id): (e: Error)
    ensures e.NoHandler? && e.messageType == TypeName(TypeOf(m))
    ensures e.className == className && e.sender == frm
  {
    NoHandler(TypeName(TypeOf(m)), className, frm)
  }

  /** The number of letters of type `ty` in `s`. */
  function CountType(s: seq<Letter>, ty: MessageType): nat {
    if s == [] then 0
    else (if TypeOf(s[0].message) == ty then 1 else 0) + CountType(s[1..], ty)
  }

  lemma {:induction false} CountTypeAppend(s: seq<Letter>, t: seq<Letter>, ty: MessageType)
    ensures CountType(s + t, ty) == CountType(s, ty) + CountType(t, ty)
    decreases |s|
  {
    if s == [] {
      assert s + t == t;
    } else {
      assert (s + t)[1..] == s[1..] + t;
      CountTypeAppend(s[1..], t, ty);
    }
  }

  /** `for a in targets: send_message_to(a, m)`: the letters, in order. */
  function LettersTo(frm: Id, targets: seq<Id>, m: Message): (r: seq<Letter>)
    ensures |r| == |targets|
    ensures forall i :: 0 <= i < |r| ==> r[i] == Letter(frm, targets[i], m)
  {
    if targets == [] then [] else [Letter(frm, targets[0], m)] + LettersTo(frm, targets[1..], m)
  }

  /** A broadcast of one message holds letters of that message's type only. */
  lemma {:induction false} CountLettersTo(frm: Id, targets: seq<Id>, m: Message, ty: MessageType)
    ensures CountType(LettersTo(frm, targets, m), ty) == if TypeOf(m) == ty then |targets| else 0
    decreases |targets|
  {
    if targets != [] {
      var r := LettersTo(frm, targets, m);
      assert r[1..] == LettersTo(frm, targets[1..], m);
      CountLettersTo(frm, targets[1..], m, ty);
    }
  }
}
