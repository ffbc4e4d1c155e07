/** hw2secws.c: a netfilter module that accepts every packet on the INPUT
    and OUTPUT chains, drops every packet on the FORWARD chain, counts
    accepted and dropped packets, and exposes the counters through a sysfs
    attribute ("<accepted>,<dropped>\n" on read; a write starting with '0'
    resets them). */
module Hw2Secws {
  import opened Kernel
  import opened Format
  import opened Stats

  const INVALID_MAJOR_NUMBER: int := -1
  /** The size of the buffer sysfs hands to a show callback. */
  const PAGE_SIZE: nat := 4096

  // ---------------------------------------------------------------------
  // Hook configuration.

  /** The order in which register_hooks submits the descriptors. */
  const Hw2Order: seq<HookSlot> := [InputSlot, OutputSlot, ForwardSlot]

  /** What register_hooks writes into each descriptor before submitting it. */
  function Hw2Ops(slot: HookSlot): HookOps
  {
    match slot
    case InputSlot => HookOps(AcceptAll, NF_INET_LOCAL_IN, PF_INET, NF_IP_PRI_FIRST)
    case OutputSlot => HookOps(AcceptAll, NF_INET_LOCAL_OUT, PF_INET, NF_IP_PRI_FIRST)
    case ForwardSlot => HookOps(DropAll, NF_INET_FORWARD, PF_INET, NF_IP_PRI_FIRST)
  }

  const UnregisterAllCalls: seq<KernelCall> :=
    [UnregisterHook(InputSlot), UnregisterHook(OutputSlot), UnregisterHook(ForwardSlot)]

  /** register_hooks when the input registration is refused: nothing else
      is tried and the input's code is reported. */
  lemma InputRefused(answers: Answers)
    requires answers.Of(InputSlot) != 0
    ensures Attempts(Hw2Order, answers) == [InputSlot]
    ensures FirstError(Hw2Order, answers) == answers.Of(InputSlot)
    ensures RegisterCalls(Attempts(Hw2Order, answers), Hw2Ops) == [RegisterHook(InputSlot, Hw2Ops(InputSlot))]
  {
    assert Hw2Order[0] == InputSlot;
  }

  /** register_hooks when only the output registration is refused: forward
      is not tried and the output's code is reported. */
  lemma OutputRefused(answers: Answers)
    requires answers.Of(InputSlot) == 0 && answers.Of(OutputSlot) != 0
    ensures Attempts(Hw2Order, answers) == [InputSlot, OutputSlot]
    ensures FirstError(Hw2Order, answers) == answers.Of(OutputSlot)
    ensures RegisterCalls(Attempts(Hw2Order, answers), Hw2Ops) ==
              [RegisterHook(InputSlot, Hw2Ops(InputSlot)), RegisterHook(OutputSlot, Hw2Ops(OutputSlot))]
  {
    assert Hw2Order[1..] == [OutputSlot, ForwardSlot];
    assert Attempts(Hw2Order, answers) == [InputSlot] + [OutputSlot];
    var tried := [InputSlot, OutputSlot];
    assert tried[1..] == [OutputSlot] && tried[1..][1..] == [];
  }

  /** register_hooks when input and output are accepted: forward is tried
      last and its answer is the result. */
  lemma ForwardTried(answers: Answers)
    requires answers.Of(InputSlot) == 0 && answers.Of(OutputSlot) == 0
    ensures Attempts(Hw2Order, answers) == Hw2Order
    ensures FirstError(Hw2Order, answers) == answers.Of(ForwardSlot)
    ensures RegisterCalls(Attempts(Hw2Order, answers), Hw2Ops) ==
              [RegisterHook(InputSlot, Hw2Ops(InputSlot)), RegisterHook(OutputSlot, Hw2Ops(OutputSlot)),
               RegisterHook(ForwardSlot, Hw2Ops(ForwardSlot))]
  {
    var rest := Hw2Order[1..];
    assert rest == [OutputSlot, ForwardSlot];
    assert rest[1..] == [ForwardSlot];
    assert rest[1..][1..] == [];
    assert Attempts(rest[1..], answers) == [ForwardSlot];
    assert Attempts(rest, answers) == [OutputSlot, ForwardSlot];
  }

  /** register_hooks reports success exactly when all three registrations
      were accepted. */
  lemma AllAccepted(answers: Answers)
    ensures FirstError(Hw2Order, answers) == 0 <==>
              answers.Of(InputSlot) == 0 && answers.Of(OutputSlot) == 0 && answers.Of(ForwardSlot) == 0
  {
    if answers.Of(InputSlot) != 0 {
      InputRefused(answers);
    } else if answers.Of(OutputSlot) != 0 {
      OutputRefused(answers);
    } else {
      ForwardTried(answers);
    }
  }

  /** Every chain uses IPv4 and the first priority; INPUT and OUTPUT accept,
      FORWARD drops. */
  lemma ChainVerdicts(slot: HookSlot)
    ensures Hw2Ops(slot).pf == PF_INET && Hw2Ops(slot).priority == NF_IP_PRI_FIRST
    ensures Hw2Ops(slot).hook != NullHook
    ensures HandlerVerdict(Hw2Ops(slot).hook) == Accept <==> slot != ForwardSlot
  {
  }

  /** The counters after packets arrived on the given chains, in order. */
  function Traffic(c: Counters, chains: seq<HookSlot>): Counters
    decreases |chains|
  {
    if chains == [] then c
    else Step(Traffic(c, chains[..|chains| - 1]), HandlerVerdict(Hw2Ops(chains[|chains| - 1]).hook))
  }

  /** The verdicts the hooks return for packets on the given chains. */
  function Verdicts(chains: seq<HookSlot>): (vs: seq<Verdict>)
    ensures |vs| == |chains|
    ensures forall i :: 0 <= i < |chains| ==> (vs[i] == Accept <==> chains[i] != ForwardSlot)
  {
    seq(|chains|, i requires 0 <= i < |chains| => HandlerVerdict(Hw2Ops(chains[i]).hook))
  }

  /** Packets on the chains update the counters as the hooks' verdicts do,
      so by RunCounts every INPUT or OUTPUT packet adds one to the accepted
      count and every FORWARD packet one to the dropped count. */
  lemma {:induction false} TrafficIsRun(c: Counters, chains: seq<HookSlot>)
    ensures Traffic(c, chains) == Run(c, Verdicts(chains))
    decreases |chains|
  {
    if chains != [] {
      var init := chains[..|chains| - 1];
      TrafficIsRun(c, init);
      assert Verdicts(chains)[..|chains| - 1] == Verdicts(init);
    }
  }

  /** The number of packets that arrived on the FORWARD chain. */
  function ForwardPackets(chains: seq<HookSlot>): (n: nat)
    ensures n <= |chains|
    decreases |chains|
  {
    if chains == [] then 0
    else ForwardPackets(chains[..|chains| - 1]) + (if chains[|chains| - 1] == ForwardSlot then 1 else 0)
  }

  /** One drop verdict per FORWARD packet, one accept verdict per other
      packet. */
  lemma {:induction false} CountVerdicts(chains: seq<HookSlot>)
    ensures Count(Verdicts(chains), Drop) == ForwardPackets(chains)
    ensures Count(Verdicts(chains), Accept) == |chains| - ForwardPackets(chains)
    decreases |chains|
  {
    if chains != [] {
      var init := chains[..|chains| - 1];
      CountVerdicts(init);
      assert Verdicts(chains)[..|chains| - 1] == Verdicts(init);
    }
  }

  /** For any traffic, the accepted count grows by the INPUT and OUTPUT
      packets and the dropped count by the FORWARD packets, each modulo
      2^32. */
  lemma TrafficCounts(c: Counters, chains: seq<HookSlot>)
    ensures Traffic(c, chains).accepted == (c.accepted + |chains| - ForwardPackets(chains)) % U32_LIMIT
    ensures Traffic(c, chains).dropped == (c.dropped + ForwardPackets(chains)) % U32_LIMIT
  {
    TrafficIsRun(c, chains);
    RunCounts(c, Verdicts(chains));
    CountVerdicts(chains);
  }

  /** Three packets on INPUT, two on OUTPUT and one on FORWARD read as
      "5,1\n"; a write of "0" then makes the attribute read "0,0\n". */
  lemma TrafficThenReset()
    ensures var c := Traffic(Zero, [InputSlot, InputSlot, InputSlot, OutputSlot, OutputSlot, ForwardSlot]);
      && StatsText(c) == "5,1\n"
      && StatsText(ApplyWrite(c, ParseWrite("0"))) == "0,0\n"
  {
    var chains := [InputSlot, InputSlot, InputSlot, OutputSlot, OutputSlot, ForwardSlot];
    assert Traffic(Zero, chains[..1]) == Counters(1, 0);
    assert chains[..2][..1] == chains[..1];
    assert Traffic(Zero, chains[..2]) == Counters(2, 0);
    assert chains[..3][..2] == chains[..2];
    assert Traffic(Zero, chains[..3]) == Counters(3, 0);
    assert chains[..4][..3] == chains[..3];
    assert Traffic(Zero, chains[..4]) == Counters(4, 0);
    assert chains[..5][..4] == chains[..4];
    assert Traffic(Zero, chains[..5]) == Counters(5, 0);
    assert chains[..5] == chains[..|chains| - 1];
    assert Traffic(Zero, chains) == Counters(5, 1);
    assert Decimal(5) == "5" && Decimal(1) == "1";
  }

  // ---------------------------------------------------------------------
  // The character device and sysfs resources.

  /** The four tracking globals: g_hw2secws_device, g_has_sysfs_device,
      g_hw2secws_class and g_major_number. */
  datatype Tracking = Tracking(device: Ptr, hasSysfsDevice: bool, cls: Ptr, majorNumber: int)

  /** Their initial values, which mean "nothing to release". */
  const Sentinels := Tracking(Null, false, Null, INVALID_MAJOR_NUMBER)

  /** The release calls clean_device makes for the tracked state, in order. */
  function ReleaseCalls(t: Tracking): (cs: seq<KernelCall>)
    ensures cs == [] <==> t == Sentinels
    ensures |cs| <= 4
  {
    (if t.device != Null then [DeviceRemoveFile(t.device)] else [])
    + (if t.hasSysfsDevice then [DeviceDestroy(t.cls, t.majorNumber)] else [])
    + (if t.cls != Null then [ClassDestroy(t.cls)] else [])
    + (if t.majorNumber != INVALID_MAJOR_NUMBER then [UnregisterChrdev(t.majorNumber)] else [])
  }

  /** The host's answers to the four calls of init_device: the result of
      register_chrdev (a major number, or a negative error), whether
      class_create and device_create returned objects rather than error
      pointers, and the result of device_create_file. */
  datatype DeviceAnswers = DeviceAnswers(chrdev: int, classCreated: bool, deviceCreated: bool, createFile: int)

  function ClassPtr(d: DeviceAnswers): Ptr {
    if d.classCreated then Object else ErrPtr
  }

  function DevicePtr(d: DeviceAnswers): Ptr {
    if d.deviceCreated then Object else ErrPtr
  }

  /** When init_device reports success. The outcome of device_create is not
      consulted: the check after it tests the class pointer again. */
  predicate DeviceSetupOk(d: DeviceAnswers) {
    d.chrdev >= 0 && d.classCreated && d.createFile == 0
  }

  /** The tracking globals when init_device reaches its cleanup label. */
  function SetupTracking(d: DeviceAnswers): Tracking {
    if d.chrdev < 0 then Tracking(Null, false, Null, d.chrdev)
    else if !d.classCreated then Tracking(Null, false, ErrPtr, d.chrdev)
    else Tracking(DevicePtr(d), true, Object, d.chrdev)
  }

  /** The creation calls init_device makes, stopping at a failed step. */
  function SetupCalls(d: DeviceAnswers): seq<KernelCall> {
    [RegisterChrdev]
    + if d.chrdev < 0 then []
      else [ClassCreate]
           + if !d.classCreated then []
             else [DeviceCreate(Object, d.chrdev), DeviceCreateFile(DevicePtr(d))]
  }

  /** After a successful setup with a real device, clean_device releases
      the file, the device, the class and the major number: the reverse of
      the order they were created in. */
  lemma ReleaseReversesSetup(d: DeviceAnswers)
    requires DeviceSetupOk(d) && d.deviceCreated
    ensures SetupCalls(d) == [RegisterChrdev, ClassCreate, DeviceCreate(Object, d.chrdev), DeviceCreateFile(Object)]
    ensures ReleaseCalls(SetupTracking(d)) ==
              [DeviceRemoveFile(Object), DeviceDestroy(Object, d.chrdev), ClassDestroy(Object), UnregisterChrdev(d.chrdev)]
  {
  }

  /** As written, a failing device_create goes unnoticed: init_device
      succeeds, records an error pointer as the device, passes it to
      device_create_file, and clean_device later passes it to
      device_remove_file. */
  lemma DeviceErrorUndetected(d: DeviceAnswers)
    requires d.chrdev >= 0 && d.classCreated && !d.deviceCreated && d.createFile == 0
    ensures DeviceSetupOk(d)
    ensures SetupTracking(d).device == ErrPtr && SetupTracking(d).hasSysfsDevice
    ensures DeviceCreateFile(ErrPtr) in SetupCalls(d)
    ensures DeviceRemoveFile(ErrPtr) in ReleaseCalls(SetupTracking(d))
  {
  }

  /** A register_chrdev error code other than -1 is kept in g_major_number
      and differs from the sentinel, so the cleanup passes it to
      unregister_chrdev as if it were a major number. */
  lemma FailedChrdevReleased(d: DeviceAnswers)
    requires d.chrdev < 0 && d.chrdev != INVALID_MAJOR_NUMBER
    ensures !DeviceSetupOk(d)
    ensures ReleaseCalls(SetupTracking(d)) == [UnregisterChrdev(d.chrdev)]
  {
  }

  /** The calls hw2secws_init makes. After a failed registration the hooks
      are unregistered twice (once by register_hooks' rollback, once by the
      init's own cleanup); after a failed device setup clean_device runs
      twice but only the first run releases anything. */
  function InitCalls(answers: Answers, d: DeviceAnswers): seq<KernelCall>
  {
    var register := RegisterCalls(Attempts(Hw2Order, answers), Hw2Ops);
    if FirstError(Hw2Order, answers) != 0 then register + UnregisterAllCalls + UnregisterAllCalls
    else if !DeviceSetupOk(d) then register + SetupCalls(d) + ReleaseCalls(SetupTracking(d)) + UnregisterAllCalls
    else register + SetupCalls(d)
  }

  // ---------------------------------------------------------------------
  // The module's state.

  /** g_stats: the two packet counters. */
  class StatsCounters {
    var acceptedPackets: U32
    var droppedPackets: U32

    function Value(): Counters
      reads this
    {
      Counters(acceptedPackets, droppedPackets)
    }

    /** The static initialiser: both counters 0. */
    constructor ()
      ensures Value() == Zero
    {
      acceptedPackets := 0;
      droppedPackets := 0;
    }

    /** log_accept: one more accepted packet, wrapping at 2^32. */
    method LogAccept()
      modifies this
      ensures acceptedPackets == Inc32(old(acceptedPackets))
      ensures droppedPackets == old(droppedPackets)
      ensures Value() == Step(old(Value()), Accept)
    {
      acceptedPackets := Inc32(acceptedPackets);
    }

    /** log_drop: one more dropped packet, wrapping at 2^32. */
    method LogDrop()
      modifies this
      ensures droppedPackets == Inc32(old(droppedPackets))
      ensures acceptedPackets == old(acceptedPackets)
      ensures Value() == Step(old(Value()), Drop)
    {
      droppedPackets := Inc32(droppedPackets);
    }

    /** zero_counters: the memset of the whole record. */
    method ZeroCounters()
      modifies this
      ensures acceptedPackets == 0 && droppedPackets == 0
    {
      acceptedPackets, droppedPackets := 0, 0;
    }
  }

  /** The module's globals other than the counters: the three hook
      descriptors and the four tracking variables. The kernel is the Host
      passed to each method. */
  class Driver {
    const stats: StatsCounters
    var inputHook: HookOps
    var outputHook: HookOps
    var forwardHook: HookOps
    var majorNumber: int
    var cls: Ptr
    var device: Ptr
    var hasSysfsDevice: bool

    function Tracked(): Tracking
      reads this
    {
      Tracking(device, hasSysfsDevice, cls, majorNumber)
    }

    function Ops(slot: HookSlot): HookOps
      reads this
    {
      match slot
      case InputSlot => inputHook
      case OutputSlot => outputHook
      case ForwardSlot => forwardHook
    }

    /** The globals as the module is loaded. */
    constructor ()
      ensures fresh(stats) && stats.Value() == Zero
      ensures Tracked() == Sentinels
      ensures forall slot :: Ops(slot) == ZeroOps
    {
      stats := new StatsCounters();
      inputHook, outputHook, forwardHook := ZeroOps, ZeroOps, ZeroOps;
      majorNumber := INVALID_MAJOR_NUMBER;
      cls, device := Null, Null;
      hasSysfsDevice := false;
    }

    /** hw2secws_hookfn_accept: ignores the packet, counts it as accepted. */
    method HookFnAccept() returns (verdict: nat)
      modifies stats
      ensures verdict == NF_ACCEPT == Accept.Code()
      ensures stats.Value() == Step(old(stats.Value()), Accept)
    {
      stats.LogAccept();
      verdict := NF_ACCEPT;
    }

    /** hw2secws_hookfn_drop: ignores the packet, counts it as dropped. */
    method HookFnDrop() returns (verdict: nat)
      modifies stats
      ensures verdict == NF_DROP == Drop.Code()
      ensures stats.Value() == Step(old(stats.Value()), Drop)
    {
      stats.LogDrop();
      verdict := NF_DROP;
    }

    /** display: the counters as "<accepted>,<dropped>\n", never truncated
        by the page-sized buffer, and its length. */
    method Display() returns (buf: string, length: int)
      ensures buf == StatsText(stats.Value())
      ensures length == |buf| <= 22
    {
      var text := StatsText(stats.Value());
      StatsTextShape(stats.Value());
      buf := Scnprintf(text, PAGE_SIZE);
      length := |buf|;
    }

    /** modify: a write whose first byte is '0' zeroes both counters and
        reports the whole write consumed; any other write, the empty one
        included, changes nothing and reports 0. */
    method Modify(buf: string) returns (result: int)
      modifies stats
      ensures stats.Value() == ApplyWrite(old(stats.Value()), ParseWrite(buf))
      ensures result == Consumed(buf)
    {
      result := 0;
      if |buf| == 0 {
        return;
      }
      if buf[0] == '0' {
        stats.ZeroCounters();
        result := |buf|;
      }
    }

    /** unregister_hooks: all three descriptors, unconditionally. */
    method UnregisterHooks(k: Host)
      modifies k
      ensures k.calls == old(k.calls) + UnregisterAllCalls
      ensures k.registered == {}
    {
      k.UnregisterNetHook(InputSlot);
      k.UnregisterNetHook(OutputSlot);
      k.UnregisterNetHook(ForwardSlot);
      NothingOutsideAllSlots(old(k.registered));
    }

    /** register_hooks: zeroes the counters, then fills and registers the
        input, output and forward descriptors in that order, stopping at the
        first failure, which it reports after unregistering all three. */
    method RegisterHooks(k: Host, answers: Answers) returns (result: int)
      modifies this, stats, k
      ensures stats.Value() == Zero
      ensures result == FirstError(Hw2Order, answers)
      ensures k.calls == old(k.calls) + RegisterCalls(Attempts(Hw2Order, answers), Hw2Ops)
                         + (if result == 0 then [] else UnregisterAllCalls)
      ensures result == 0 ==> k.registered == old(k.registered) + AllSlots
      ensures result != 0 ==> k.registered == {}
      ensures inputHook == Hw2Ops(InputSlot)
      ensures outputHook == if answers.Of(InputSlot) == 0 then Hw2Ops(OutputSlot) else old(outputHook)
      ensures forwardHook ==
                if answers.Of(InputSlot) == 0 && answers.Of(OutputSlot) == 0 then Hw2Ops(ForwardSlot) else old(forwardHook)
      ensures Tracked() == old(Tracked())
    {
      stats.ZeroCounters();

      inputHook := inputHook.(hook := AcceptAll);
      inputHook := inputHook.(hooknum := NF_INET_LOCAL_IN);
      inputHook := inputHook.(pf := PF_INET);
      inputHook := inputHook.(priority := NF_IP_PRI_FIRST);
      result := k.RegisterNetHook(InputSlot, inputHook, answers.Of(InputSlot));

      if result == 0 {
        outputHook := outputHook.(hook := AcceptAll);
        outputHook := outputHook.(hooknum := NF_INET_LOCAL_OUT);
        outputHook := outputHook.(pf := PF_INET);
        outputHook := outputHook.(priority := NF_IP_PRI_FIRST);
        result := k.RegisterNetHook(OutputSlot, outputHook, answers.Of(OutputSlot));

        if result == 0 {
          forwardHook := forwardHook.(hook := DropAll);
          forwardHook := forwardHook.(hooknum := NF_INET_FORWARD);
          forwardHook := forwardHook.(pf := PF_INET);
          forwardHook := forwardHook.(priority := NF_IP_PRI_FIRST);
          result := k.RegisterNetHook(ForwardSlot, forwardHook, answers.Of(ForwardSlot));
        }
      }

      if result != 0 {
        UnregisterHooks(k);
      }

      if answers.Of(InputSlot) != 0 {
        InputRefused(answers);
      } else if answers.Of(OutputSlot) != 0 {
        OutputRefused(answers);
      } else {
        ForwardTried(answers);
      }
    }

    /** clean_device: releases each tracked resource that is present and
        resets its variable to the sentinel, so a second call releases
        nothing. */
    method CleanDevice(k: Host)
      modifies this, k
      ensures Tracked() == Sentinels
      ensures k.calls == old(k.calls) + ReleaseCalls(old(Tracked()))
      ensures k.registered == old(k.registered)
      ensures inputHook == old(inputHook) && outputHook == old(outputHook) && forwardHook == old(forwardHook)
    {
      if device != Null {
        k.Call(DeviceRemoveFile(device));
        device := Null;
      }
      if hasSysfsDevice {
        k.Call(DeviceDestroy(cls, majorNumber));
        hasSysfsDevice := false;
      }
      if cls != Null {
        k.Call(ClassDestroy(cls));
        cls := Null;
      }
      if majorNumber != INVALID_MAJOR_NUMBER {
        k.Call(UnregisterChrdev(majorNumber));
        majorNumber := INVALID_MAJOR_NUMBER;
      }
    }

    /** init_device: creates the character device, the class, the device
        and its attribute file, stopping at the first failure and then
        cleaning up everything tracked so far. */
    method InitDevice(k: Host, d: DeviceAnswers) returns (result: int)
      requires Tracked() == Sentinels
      modifies this, k
      ensures result == 0 <==> DeviceSetupOk(d)
      ensures result == 0 || result == -1
      ensures Tracked() == if result == 0 then SetupTracking(d) else Sentinels
      ensures k.calls == old(k.calls) + SetupCalls(d) + (if result == 0 then [] else ReleaseCalls(SetupTracking(d)))
      ensures k.registered == old(k.registered)
      ensures inputHook == old(inputHook) && outputHook == old(outputHook) && forwardHook == old(forwardHook)
    {
      result := 0;
      majorNumber := d.chrdev;
      k.Call(RegisterChrdev);
      if majorNumber < 0 {
        result := -1;
      } else {
        cls := ClassPtr(d);
        k.Call(ClassCreate);
        if cls == ErrPtr {
          result := -1;
        } else {
          device := DevicePtr(d);
          k.Call(DeviceCreate(cls, majorNumber));
          // The source tests the class pointer here, not the device.
          if cls == ErrPtr {
            result := -1;
          } else {
            hasSysfsDevice := true;
            k.Call(DeviceCreateFile(device));
            if d.createFile != 0 {
              result := -1;
            }
          }
        }
      }
      assert Tracked() == SetupTracking(d);
      if result != 0 {
        CleanDevice(k);
      }
    }

    /** hw2secws_init: registers the hooks, then sets up the device; on any
        failure it runs clean_device and unregister_hooks, so no hook stays
        registered and every tracking variable is back at its sentinel. */
    method Init(k: Host, answers: Answers, d: DeviceAnswers) returns (result: int)
      requires Tracked() == Sentinels
      modifies this, stats, k
      ensures result == 0 <==> FirstError(Hw2Order, answers) == 0 && DeviceSetupOk(d)
      ensures FirstError(Hw2Order, answers) != 0 ==> result == FirstError(Hw2Order, answers)
      ensures FirstError(Hw2Order, answers) == 0 && !DeviceSetupOk(d) ==> result == -1
      ensures result == 0 ==>
                inputHook == Hw2Ops(InputSlot) && outputHook == Hw2Ops(OutputSlot) && forwardHook == Hw2Ops(ForwardSlot)
      ensures inputHook == Hw2Ops(InputSlot)
      ensures outputHook == if answers.Of(InputSlot) == 0 then Hw2Ops(OutputSlot) else old(outputHook)
      ensures forwardHook ==
                if answers.Of(InputSlot) == 0 && answers.Of(OutputSlot) == 0 then Hw2Ops(ForwardSlot) else old(forwardHook)
      ensures result == 0 ==> k.registered == old(k.registered) + AllSlots && Tracked() == SetupTracking(d)
      ensures result != 0 ==> k.registered == {} && Tracked() == Sentinels
      ensures stats.Value() == Zero
      ensures k.calls == old(k.calls) + InitCalls(answers, d)
    {
      ghost var calls0 := k.calls;
      ghost var register := RegisterCalls(Attempts(Hw2Order, answers), Hw2Ops);
      result := RegisterHooks(k, answers);
      if result == 0 {
        result := InitDevice(k, d);
      }
      ghost var beforeCleanup := k.calls;
      if result != 0 {
        // whatever failed has already released its own resources, so this
        // clean_device releases nothing
        assert ReleaseCalls(Tracked()) == [];
        CleanDevice(k);
        UnregisterHooks(k);
        assert k.calls == beforeCleanup + UnregisterAllCalls;
        if FirstError(Hw2Order, answers) != 0 {
          assert InitCalls(answers, d) == register + UnregisterAllCalls + UnregisterAllCalls;
        } else {
          assert InitCalls(answers, d) == register + SetupCalls(d) + ReleaseCalls(SetupTracking(d)) + UnregisterAllCalls;
        }
      } else {
        AllAccepted(answers);
        assert InitCalls(answers, d) == register + SetupCalls(d);
      }
    }

    /** hw2secws_exit: clean_device, then unregister_hooks. */
    method Exit(k: Host)
      modifies this, k
      ensures Tracked() == Sentinels
      ensures k.registered == {}
      ensures k.calls == old(k.calls) + ReleaseCalls(old(Tracked())) + UnregisterAllCalls
      ensures inputHook == old(inputHook) && outputHook == old(outputHook) && forwardHook == old(forwardHook)
    {
      CleanDevice(k);
      UnregisterHooks(k);
    }
  }
}
