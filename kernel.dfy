/** The slice of the Linux kernel interface both modules use: netfilter's
    verdicts and hook descriptors, and a host that answers registration
    requests and records every call made into the kernel, in order. */
module Kernel {

  // Values of Linux's netfilter headers.
  const NF_DROP: nat := 0
  const NF_ACCEPT: nat := 1
  const NF_INET_LOCAL_IN: int := 1
  const NF_INET_FORWARD: int := 2
  const NF_INET_LOCAL_OUT: int := 3
  const PF_INET: int := 2
  const NF_IP_PRI_FIRST: int := -0x8000_0000

  /** The verdict a hook returns to the packet pipeline. */
  datatype Verdict = Drop | Accept {
    function Code(): (code: nat)
      ensures code == NF_DROP <==> this == Drop
      ensures code == NF_ACCEPT <==> this == Accept
    {
      if Drop? then NF_DROP else NF_ACCEPT
    }
  }

  /** The function pointer stored in a hook descriptor: NULL in a
      zero-initialised descriptor, otherwise the accept-all or the drop-all
      handler. */
  datatype HookFn = NullHook | AcceptAll | DropAll

  /** The verdict the handler returns for every packet. */
  function HandlerVerdict(fn: HookFn): (v: Verdict)
    requires fn != NullHook
    ensures v == Accept <==> fn == AcceptAll
  {
    if fn == AcceptAll then Accept else Drop
  }

  /** struct nf_hook_ops, the fields the modules set. */
  datatype HookOps = HookOps(hook: HookFn, hooknum: int, pf: int, priority: int)

  /** A static struct nf_hook_ops before any field is assigned. */
  const ZeroOps := HookOps(NullHook, 0, 0, 0)

  /** Which global hook descriptor a call refers to (g_input_hook,
      g_output_hook, g_forward_hook); the kernel identifies a registration
      by the descriptor's address. */
  datatype HookSlot = InputSlot | OutputSlot | ForwardSlot

  const AllSlots: set<HookSlot> := {InputSlot, OutputSlot, ForwardSlot}

  /** Every descriptor is one of the three. */
  lemma NothingOutsideAllSlots(s: set<HookSlot>)
    ensures s - AllSlots == {}
  {
    forall slot | slot in s
      ensures slot in AllSlots
    {
      match slot
      case InputSlot =>
      case OutputSlot =>
      case ForwardSlot =>
    }
  }

  /** A kernel pointer as the driver stores it: NULL, an ERR_PTR value, or
      a live object. */
  datatype Ptr = Null | ErrPtr | Object

  /** Every call the modules make into the kernel. */
  datatype KernelCall =
    | RegisterHook(slot: HookSlot, ops: HookOps)
    | UnregisterHook(slot: HookSlot)
    | RegisterChrdev
    | UnregisterChrdev(major: int)
    | ClassCreate
    | ClassDestroy(cls: Ptr)
    | DeviceCreate(cls: Ptr, major: int)
    | DeviceDestroy(cls: Ptr, major: int)
    | DeviceCreateFile(dev: Ptr)
    | DeviceRemoveFile(dev: Ptr)

  /** The kernel as the modules see it: the set of registered hook
      descriptors and the log of calls received. Whether a registration
      succeeds is an answer supplied by the caller; unregistering removes
      the descriptor from the set, and does nothing if it is not there. */
  class Host {
    var registered: set<HookSlot>
    var calls: seq<KernelCall>

    constructor ()
      ensures registered == {} && calls == []
    {
      registered := {};
      calls := [];
    }

    /** nf_register_net_hook, returning the host's answer. */
    method RegisterNetHook(slot: HookSlot, ops: HookOps, answer: int) returns (result: int)
      modifies this
      ensures result == answer
      ensures calls == old(calls) + [RegisterHook(slot, ops)]
      ensures registered == if answer == 0 then old(registered) + {slot} else old(registered)
    {
      calls := calls + [RegisterHook(slot, ops)];
      if answer == 0 {
        registered := registered + {slot};
      }
      result := answer;
    }

    /** nf_unregister_net_hook. */
    method UnregisterNetHook(slot: HookSlot)
      modifies this
      ensures calls == old(calls) + [UnregisterHook(slot)]
      ensures registered == old(registered) - {slot}
    {
      calls := calls + [UnregisterHook(slot)];
      registered := registered - {slot};
    }

    /** Any other call whose only effect the model tracks is its place in
      the log. */
    method Call(call: KernelCall)
      modifies this
      ensures calls == old(calls) + [call]
      ensures registered == old(registered)
    {
      calls := calls + [call];
    }
  }

  // ---------------------------------------------------------------------
  // Registering hooks in a fixed order, stopping at the first failure.

  /** The host's answer to nf_register_net_hook for each descriptor: 0 to
      accept the registration, any other value to refuse it with that code. */
  datatype Answers = Answers(input: int, output: int, forward: int) {
    function Of(slot: HookSlot): int {
      match slot
      case InputSlot => input
      case OutputSlot => output
      case ForwardSlot => forward
    }
  }

  /** The descriptors actually submitted: every one up to and including the
      first whose registration fails. */
  function Attempts(order: seq<HookSlot>, answers: Answers): seq<HookSlot>
    decreases |order|
  {
    if order == [] then []
    else if answers.Of(order[0]) != 0 then [order[0]]
    else [order[0]] + Attempts(order[1..], answers)
  }

  /** The code the sequence reports: the first nonzero answer, or 0. */
  function FirstError(order: seq<HookSlot>, answers: Answers): int
    decreases |order|
  {
    if order == [] then 0
    else if answers.Of(order[0]) != 0 then answers.Of(order[0])
    else FirstError(order[1..], answers)
  }

  /** The attempts follow the given order, every one but the last was
      accepted, and a registration is left untried only after a refusal. */
  lemma {:induction false} AttemptsFollowOrder(order: seq<HookSlot>, answers: Answers)
    ensures var tried := Attempts(order, answers);
      && |tried| <= |order|
      && (forall i :: 0 <= i < |tried| ==> tried[i] == order[i])
      && (forall i :: 0 <= i < |tried| - 1 ==> answers.Of(tried[i]) == 0)
      && (|tried| < |order| ==> tried != [] && answers.Of(tried[|tried| - 1]) != 0)
    decreases |order|
  {
    if order != [] && answers.Of(order[0]) == 0 {
      AttemptsFollowOrder(order[1..], answers);
    }
  }

  /** The reported code is 0 exactly when every answer is 0, and otherwise
      the answer of the first descriptor that was refused. */
  lemma {:induction false} FirstErrorIsFirstRefusal(order: seq<HookSlot>, answers: Answers)
    ensures var code := FirstError(order, answers);
      && (code == 0 <==> forall i :: 0 <= i < |order| ==> answers.Of(order[i]) == 0)
      && (code != 0 ==> exists i :: 0 <= i < |order| && answers.Of(order[i]) == code
                                   && forall j :: 0 <= j < i ==> answers.Of(order[j]) == 0)
    decreases |order|
  {
    if order != [] && answers.Of(order[0]) == 0 {
      FirstErrorIsFirstRefusal(order[1..], answers);
      var code := FirstError(order, answers);
      if code != 0 {
        var i :| 0 <= i < |order[1..]| && answers.Of(order[1..][i]) == code
                 && forall j :: 0 <= j < i ==> answers.Of(order[1..][j]) == 0;
        assert answers.Of(order[i + 1]) == code;
        assert forall j :: 0 <= j < i + 1 ==> answers.Of(order[j]) == 0 by {
          forall j | 0 <= j < i + 1
            ensures answers.Of(order[j]) == 0
          {
            if j > 0 {
              assert order[j] == order[1..][j - 1];
            }
          }
        }
      } else {
        assert forall i :: 0 <= i < |order| ==> answers.Of(order[i]) == 0 by {
          forall i | 0 <= i < |order|
            ensures answers.Of(order[i]) == 0
          {
            if i > 0 {
              assert order[i] == order[1..][i - 1];
            }
          }
        }
      }
    }
  }

  /** The descriptors left registered by the attempts. */
  function Succeeded(order: seq<HookSlot>, answers: Answers): set<HookSlot>
  {
    var tried := Attempts(order, answers);
    set i | 0 <= i < |tried| && answers.Of(tried[i]) == 0 :: tried[i]
  }

  /** The register calls made for the attempted descriptors. */
  function RegisterCalls(tried: seq<HookSlot>, config: HookSlot -> HookOps): seq<KernelCall>
  {
    if tried == [] then [] else [RegisterHook(tried[0], config(tried[0]))] + RegisterCalls(tried[1..], config)
  }

  /** Attempts and FirstError agree: all descriptors are tried exactly when
      all succeed, and otherwise the last one tried is the one whose code is
      reported. */
  lemma {:induction false} AttemptsStopAtFirstError(order: seq<HookSlot>, answers: Answers)
    ensures FirstError(order, answers) == 0 ==> Attempts(order, answers) == order
    ensures FirstError(order, answers) != 0 ==>
              var tried := Attempts(order, answers);
              tried != [] && answers.Of(tried[|tried| - 1]) == FirstError(order, answers)
    decreases |order|
  {
    if order != [] && answers.Of(order[0]) == 0 {
      AttemptsStopAtFirstError(order[1..], answers);
    }
  }

  /** Only the failing descriptor is left out: when every answer is 0 all
      descriptors end up registered, and otherwise exactly the ones tried
      before the failure. */
  lemma SucceededAreTheTriedPrefix(order: seq<HookSlot>, answers: Answers)
    ensures FirstError(order, answers) == 0 ==> Succeeded(order, answers) == set s | s in order
    ensures FirstError(order, answers) != 0 ==>
              var tried := Attempts(order, answers);
              Succeeded(order, answers) == set i | 0 <= i < |tried| - 1 :: tried[i]
  {
    AttemptsStopAtFirstError(order, answers);
    AttemptsFollowOrder(order, answers);
    FirstErrorIsFirstRefusal(order, answers);
    var tried := Attempts(order, answers);
    if FirstError(order, answers) == 0 {
      assert forall s :: s in order ==> exists i :: 0 <= i < |tried| && tried[i] == s && answers.Of(tried[i]) == 0;
    }
  }
}
