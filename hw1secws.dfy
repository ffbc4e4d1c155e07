/** hw1secws.c: the earlier variant of the module. It accepts every packet on
    the INPUT chain and drops every packet on the FORWARD chain, keeps no
    counters, and does not undo a registration when a later one fails. */
module Hw1Secws {
  import opened Kernel

  /** The order in which hw1secws_init submits the descriptors. */
  const Hw1Order: seq<HookSlot> := [InputSlot, ForwardSlot]

  /** What hw1secws_init writes into each descriptor before submitting it;
      the module has no output descriptor. */
  function Hw1Ops(slot: HookSlot): HookOps
  {
    match slot
    case InputSlot => HookOps(AcceptAll, NF_INET_LOCAL_IN, PF_INET, NF_IP_PRI_FIRST)
    case OutputSlot => ZeroOps
    case ForwardSlot => HookOps(DropAll, NF_INET_FORWARD, PF_INET, NF_IP_PRI_FIRST)
  }

  /** hw1secws_hookfn_accept: ignores the packet and touches no state. */
  method HookFnAccept() returns (verdict: nat)
    ensures verdict == NF_ACCEPT == Accept.Code()
  {
    verdict := NF_ACCEPT;
  }

  /** hw1secws_hookfn_drop: ignores the packet and touches no state. */
  method HookFnDrop() returns (verdict: nat)
    ensures verdict == NF_DROP == Drop.Code()
  {
    verdict := NF_DROP;
  }

  /** Both chains use IPv4 and the first priority; INPUT accepts, FORWARD
      drops. */
  lemma Hw1ChainVerdicts()
    ensures forall slot :: slot in Hw1Order ==>
              Hw1Ops(slot).pf == PF_INET && Hw1Ops(slot).priority == NF_IP_PRI_FIRST && Hw1Ops(slot).hook != NullHook
    ensures HandlerVerdict(Hw1Ops(InputSlot).hook) == Accept
    ensures HandlerVerdict(Hw1Ops(ForwardSlot).hook) == Drop
    ensures Hw1Ops(InputSlot).hooknum == NF_INET_LOCAL_IN && Hw1Ops(ForwardSlot).hooknum == NF_INET_FORWARD
  {
  }

  /** hw1secws_init when the input registration is refused: forward is not
      tried, nothing is registered and the input's code is reported. */
  lemma Hw1InputRefused(answers: Answers)
    requires answers.Of(InputSlot) != 0
    ensures Attempts(Hw1Order, answers) == [InputSlot]
    ensures FirstError(Hw1Order, answers) == answers.Of(InputSlot)
    ensures RegisterCalls(Attempts(Hw1Order, answers), Hw1Ops) == [RegisterHook(InputSlot, Hw1Ops(InputSlot))]
    ensures Succeeded(Hw1Order, answers) == {}
  {
    assert Hw1Order[0] == InputSlot;
  }

  /** hw1secws_init when the input registration is accepted: forward is
      tried, its answer is the result, and input stays registered whatever
      that answer is. */
  lemma Hw1ForwardTried(answers: Answers)
    requires answers.Of(InputSlot) == 0
    ensures Attempts(Hw1Order, answers) == Hw1Order
    ensures FirstError(Hw1Order, answers) == answers.Of(ForwardSlot)
    ensures RegisterCalls(Attempts(Hw1Order, answers), Hw1Ops) ==
              [RegisterHook(InputSlot, Hw1Ops(InputSlot)), RegisterHook(ForwardSlot, Hw1Ops(ForwardSlot))]
    ensures Succeeded(Hw1Order, answers) ==
              if answers.Of(ForwardSlot) == 0 then {InputSlot, ForwardSlot} else {InputSlot}
  {
    var rest := Hw1Order[1..];
    assert rest == [ForwardSlot];
    assert rest[1..] == [];
    assert Attempts(rest, answers) == [ForwardSlot];
    var tried := Attempts(Hw1Order, answers);
    assert tried[0] == InputSlot && tried[1] == ForwardSlot;
  }

  /** The module never touches the output chain. */
  lemma OutputNeverRegistered(answers: Answers)
    ensures OutputSlot !in Attempts(Hw1Order, answers)
    ensures OutputSlot !in Succeeded(Hw1Order, answers)
  {
    if answers.Of(InputSlot) != 0 {
      Hw1InputRefused(answers);
    } else {
      Hw1ForwardTried(answers);
    }
  }

  /** No rollback: when forward is refused after input was accepted, the
      init reports the error while the input hook stays registered. */
  lemma NoRollback(answers: Answers)
    requires answers.Of(InputSlot) == 0 && answers.Of(ForwardSlot) != 0
    ensures FirstError(Hw1Order, answers) == answers.Of(ForwardSlot) != 0
    ensures Succeeded(Hw1Order, answers) == {InputSlot}
  {
    Hw1ForwardTried(answers);
  }

  /** The module's globals g_input_hook and g_forward_hook. The kernel is
      the Host passed to each method. */
  class Module {
    var inputHook: HookOps
    var forwardHook: HookOps

    /** Static descriptors start zero-initialised. */
    constructor ()
      ensures inputHook == ZeroOps && forwardHook == ZeroOps
    {
      inputHook, forwardHook := ZeroOps, ZeroOps;
    }

    /** hw1secws_init: fills and registers input, then forward, stopping at
        the first failure and reporting its code; what was registered before
        the failure stays registered. */
    method Init(k: Host, answers: Answers) returns (result: int)
      modifies this, k
      ensures result == FirstError(Hw1Order, answers)
      ensures k.calls == old(k.calls) + RegisterCalls(Attempts(Hw1Order, answers), Hw1Ops)
      ensures k.registered == old(k.registered) + Succeeded(Hw1Order, answers)
      ensures inputHook == Hw1Ops(InputSlot)
      ensures forwardHook == if answers.Of(InputSlot) == 0 then Hw1Ops(ForwardSlot) else old(forwardHook)
    {
      result := 0;
      var resultRegisterHook := -1;

      inputHook := inputHook.(hook := AcceptAll);
      inputHook := inputHook.(hooknum := NF_INET_LOCAL_IN);
      inputHook := inputHook.(pf := PF_INET);
      inputHook := inputHook.(priority := NF_IP_PRI_FIRST);
      resultRegisterHook := k.RegisterNetHook(InputSlot, inputHook, answers.Of(InputSlot));
      if resultRegisterHook != 0 {
        result := resultRegisterHook;
        Hw1InputRefused(answers);
        return;
      }

      forwardHook := forwardHook.(hook := DropAll);
      forwardHook := forwardHook.(hooknum := NF_INET_FORWARD);
      forwardHook := forwardHook.(pf := PF_INET);
      forwardHook := forwardHook.(priority := NF_IP_PRI_FIRST);
      resultRegisterHook := k.RegisterNetHook(ForwardSlot, forwardHook, answers.Of(ForwardSlot));
      if resultRegisterHook != 0 {
        result := resultRegisterHook;
      }
      Hw1ForwardTried(answers);
    }

    /** hw1secws_exit: unregisters input, then forward, unconditionally. */
    method Exit(k: Host)
      modifies k
      ensures k.calls == old(k.calls) + [UnregisterHook(InputSlot), UnregisterHook(ForwardSlot)]
      ensures k.registered == old(k.registered) - {InputSlot, ForwardSlot}
      ensures OutputSlot in old(k.registered) <==> OutputSlot in k.registered
    {
      k.UnregisterNetHook(InputSlot);
      k.UnregisterNetHook(ForwardSlot);
    }
  }
}
