# DummyFirewall netfilter modules, modelled in Dafny

DummyFirewall contains two small Linux kernel modules that hook into netfilter.

- `hw1secws.c`, the earlier one, registers two hooks:
  - one on the INPUT chain, which accepts every packet;
  - one on the FORWARD chain, which drops every packet.
- `hw2secws.c` registers three hooks:
  - INPUT and OUTPUT accept every packet;
  - FORWARD drops every packet.

  It also:
  - counts accepted and dropped packets in two unsigned 32-bit counters;
  - exposes the counters through a sysfs attribute, which reads as `"<accepted>,<dropped>\n"`; a write whose first byte is `'0'` resets both counters;
  - creates a character device, a class, a device and an attribute file, tracking each in a global so that it can be released on failure or unload.

The project is organised as follows.

- `kernel.dfy` (module `Kernel`): the kernel interface both modules use.
  - netfilter verdicts and hook descriptors;
  - a `Host` class standing for the kernel: it records the set of registered descriptors and a log of every call made into it;
  - the reference definitions for registering descriptors in order and stopping at the first failure: `Attempts`, `FirstError` and `Succeeded`.
- `format.dfy` (module `Format`): the `%lu` decimal conversion, its parser, and `scnprintf`'s truncation.
- `stats.dfy` (module `Stats`): the counter record as a value, with:
  - the wrapping 32-bit increment;
  - the text the attribute shows;
  - how a write to the attribute is interpreted.
- `hw2secws.dfy` (module `Hw2Secws`): the later module.
  - `StatsCounters` is `g_stats`.
  - `Driver` holds the hook descriptors and the four tracking globals. Its methods mirror the C functions.
- `hw1secws.dfy` (module `Hw1Secws`): the earlier module. `Module` holds its two hook descriptors.

The kernel's answers are parameters:
- the result of each `nf_register_net_hook` (`Answers`);
- the outcomes of `register_chrdev`, `class_create`, `device_create` and `device_create_file` (`DeviceAnswers`).

Every kernel call appends an entry to `Host.calls`. So contracts can state the exact order of registrations, releases and unregistrations. Unregistering removes the descriptor from `Host.registered`, and does nothing when it is absent.

Behaviour reproduced as written in the source:

- `zero_counters` (hw2secws.c:192-198) contains a stray fragment at line 195. That fragment does not compile. The model follows the `memset` on line 196: both counters become 0.
- `init_device` checks `IS_ERR(g_hw2secws_class)` after `device_create` (hw2secws.c:283-286). It does not check the device pointer. The model keeps this: a failing `device_create` goes unnoticed (`DeviceErrorUndetected`).
- When `register_chrdev` fails with an error code other than -1, the code stays in `g_major_number` (hw2secws.c:269-273). That code differs from `INVALID_MAJOR_NUMBER`. So `clean_device` passes it to `unregister_chrdev` (`FailedChrdevReleased`).
- After `register_hooks` fails, `hw2secws_init` still runs `clean_device` and `unregister_hooks`. So the three descriptors are unregistered twice. After `init_device` fails, `clean_device` runs twice, and the second run releases nothing. `InitCalls` spells out both call sequences.

## Model

| member | source | states |
|---|---|---|
| Stats.Inc32 | hw2secws.c:151 | `++` on a `uint32_t` counter adds one below 2^32 - 1 and wraps to 0 from 2^32 - 1 |
| Hw2Secws.StatsCounters.constructor | hw2secws.c:138-141 | `g_stats` starts with both counters at 0 |
| Hw2Secws.StatsCounters.LogAccept | hw2secws.c:148-153 | the accepted counter is incremented modulo 2^32; the dropped counter is unchanged |
| Hw2Secws.StatsCounters.LogDrop | hw2secws.c:155-160 | the dropped counter is incremented modulo 2^32; the accepted counter is unchanged |
| Stats.RunCounts | hw2secws.c:148-160 | after any sequence of verdicts, each counter equals its start value plus the number of matching verdicts, modulo 2^32; no increment lands on the wrong counter |
| Hw2Secws.Driver.HookFnAccept | hw2secws.c:162-175 | returns NF_ACCEPT and counts one accepted packet, leaving the dropped count unchanged |
| Hw2Secws.Driver.HookFnDrop | hw2secws.c:177-190 | returns NF_DROP and counts one dropped packet, leaving the accepted count unchanged |
| Kernel.HandlerVerdict | hw2secws.c:162-190 | a hook function's verdict is Accept exactly for the accept handler |
| Kernel.Verdict.Code | hw2secws.c:174 | a verdict's code is NF_ACCEPT exactly for Accept and NF_DROP exactly for Drop |
| Hw2Secws.StatsCounters.ZeroCounters | hw2secws.c:192-198 | both counters become 0 |
| Format.DigitChar | hw2secws.c:350 | each value below 10 maps to a digit character whose offset from '0' is that value |
| Format.DigitValue | hw2secws.c:350 | a digit character's value is below 10, and `DigitChar` maps the value back to the same character |
| Format.Pow10 | hw2secws.c:350 | helper for `DecimalLength`: a power of ten is at least 1 |
| Format.Decimal | hw2secws.c:350 | `%lu` prints at least one character, only digits, and has a leading '0' exactly when the number is 0 |
| Format.DecimalRoundTrip | hw2secws.c:350 | reading the printed digits back gives the original number |
| Format.DecimalLength | hw2secws.c:350 | a number below 10^k prints in at most k digits |
| Format.DecimalLength32 | hw2secws.c:350-351 | a 32-bit counter prints in at most 10 digits |
| Format.Scnprintf | hw2secws.c:350 | writes a prefix of the text of length min(len, size - 1), or nothing when size is 0 |
| Stats.StatsTextShape | hw2secws.c:350-351 | the text is the accepted digits, ',', the dropped digits and '\n'; both counts can be read back from it; it is 4 to 22 characters long |
| Stats.StatsTextInjective | hw2secws.c:350-351 | different counter values never show the same text |
| Hw2Secws.Driver.Display | hw2secws.c:342-354 | changes nothing; the buffer holds exactly the counters' text, never truncated by PAGE_SIZE; the returned length is its length, at most 22 |
| Stats.ParseWrite | hw2secws.c:361-368 | a write resets the counters exactly when it is non-empty and its first byte is '0' |
| Stats.Consumed | hw2secws.c:359-372 | the reported byte count is either 0 or the write's length, and it is the full, non-zero length exactly for a resetting write |
| Hw2Secws.Driver.Modify | hw2secws.c:356-373 | a write starting with '0' zeroes both counters and returns the count; an empty write or any other first byte changes nothing and returns 0 |
| Stats.WriteIdempotent | hw2secws.c:365-368 | applying the same write twice leaves the same counters as applying it once |
| Stats.ResetShowsZero | hw2secws.c:365-368 | after a resetting write the attribute reads "0,0\n" |
| Stats.IgnoredWriteKeepsText | hw2secws.c:361-368 | a non-resetting write leaves both the counters and the text unchanged |
| Hw2Secws.TrafficThenReset | hw2secws.c:162-190 | three INPUT, two OUTPUT and one FORWARD packet read as "5,1\n", and a "0" write then makes it read "0,0\n" |
| Hw2Secws.Verdicts | hw2secws.c:162-190 | a packet's verdict is Accept exactly when it arrives on a chain other than FORWARD |
| Hw2Secws.TrafficIsRun | hw2secws.c:148-190 | packets on any sequence of chains update the counters as the sequence of their hooks' verdicts does, so `RunCounts` gives the counts for any traffic |
| Hw2Secws.CountVerdicts | hw2secws.c:162-190 | the hooks return one drop per FORWARD packet and one accept per INPUT or OUTPUT packet |
| Hw2Secws.TrafficCounts | hw2secws.c:148-190 | for any traffic, accepted grows by the INPUT and OUTPUT packets and dropped by the FORWARD packets, each modulo 2^32 |
| Kernel.Host.RegisterNetHook | hw2secws.c:217 | returns the kernel's answer, logs the registration, and adds the descriptor only when the answer is 0 |
| Kernel.Host.UnregisterNetHook | hw2secws.c:336 | logs the call and removes the descriptor from the registered set |
| Kernel.Host.Call | hw2secws.c:269-328 | appends the call to the log and leaves the registered set unchanged |
| Kernel.AttemptsFollowOrder | hw2secws.c:209-249 | registrations are attempted in the given order; every attempt before the last was accepted; an attempt is skipped only after a refusal |
| Kernel.FirstErrorIsFirstRefusal | hw2secws.c:217-253 | the result is 0 exactly when every registration is accepted, and otherwise it is the code of the first one refused |
| Kernel.AttemptsStopAtFirstError | hw2secws.c:217-249 | all descriptors are attempted exactly when the result is 0; otherwise the last attempt is the one whose code is reported |
| Kernel.SucceededAreTheTriedPrefix | hw2secws.c:217-249 | on success every descriptor is registered; on failure exactly those attempted before the refused one are |
| Kernel.NothingOutsideAllSlots | hw2secws.c:115-126 | helper for `UnregisterHooks`: every descriptor is one of the three globals |
| Hw2Secws.InputRefused | hw2secws.c:209-221 | when INPUT is refused, only INPUT is attempted, and its code is returned |
| Hw2Secws.OutputRefused | hw2secws.c:223-235 | when OUTPUT is refused, INPUT and OUTPUT are attempted, FORWARD is not, and OUTPUT's code is returned |
| Hw2Secws.ForwardTried | hw2secws.c:237-253 | when INPUT and OUTPUT are accepted, all three are attempted and FORWARD's answer is the result |
| Hw2Secws.AllAccepted | hw2secws.c:217-253 | register_hooks reports 0 exactly when all three registrations are accepted |
| Hw2Secws.ChainVerdicts | hw2secws.c:211-242 | every descriptor uses PF_INET and NF_IP_PRI_FIRST and has a handler; INPUT and OUTPUT accept, FORWARD drops |
| Hw2Secws.Driver.RegisterHooks | hw2secws.c:200-260 | zeroes the counters; returns the first refusal code or 0; makes exactly the attempted registrations, in order, each with its descriptor's configuration; on success all three are registered; on failure all three are unregistered and none remains |
| Hw2Secws.Driver.UnregisterHooks | hw2secws.c:333-339 | unregisters INPUT, OUTPUT and FORWARD in that order, unconditionally, leaving no descriptor registered |
| Hw2Secws.ReleaseCalls | hw2secws.c:310-331 | the release calls are empty exactly when every tracking variable is at its sentinel, and there are at most four |
| Hw2Secws.Driver.CleanDevice | hw2secws.c:310-331 | releases the file, the device, the class and the major number, each only if tracked and in that order; leaves every tracking variable at its sentinel, so a second call releases nothing |
| Hw2Secws.Driver.InitDevice | hw2secws.c:262-308 | returns 0 exactly when the chrdev, class and file steps succeed, and -1 on every failure; makes the creation calls up to the failing step; on failure it releases what it tracked and leaves the sentinels |
| Hw2Secws.ReleaseReversesSetup | hw2secws.c:268-331 | after a full setup, teardown releases the resources in the reverse of their creation order |
| Hw2Secws.DeviceErrorUndetected | hw2secws.c:283-297 | a failing device_create is not detected: setup succeeds, and the error pointer is passed to device_create_file and later to device_remove_file |
| Hw2Secws.FailedChrdevReleased | hw2secws.c:269-273 | a register_chrdev error other than -1 fails the setup, and the cleanup passes that error to unregister_chrdev |
| Hw2Secws.Driver.constructor | hw2secws.c:115-142 | the descriptors start zeroed, the counters at 0 and the tracking variables at their sentinels |
| Hw2Secws.Driver.Init | hw2secws.c:375-400 | returns 0 exactly when registration and device setup both succeed, otherwise the first refused registration's code, or -1 when device setup fails; the descriptors hold their configuration up to the one whose registration failed, and later ones keep their old contents; on success all hooks are registered and the device is tracked; on any failure no hook is registered and every tracking variable is at its sentinel; the counters are zeroed; the exact kernel call sequence is `InitCalls` |
| Hw2Secws.Driver.Exit | hw2secws.c:402-410 | runs clean_device and then unregister_hooks: the tracked resources are released, then all three hooks are unregistered; the descriptors are left as they were |
| Hw1Secws.HookFnAccept | hw1secws.c:48-60 | returns NF_ACCEPT and changes no state |
| Hw1Secws.HookFnDrop | hw1secws.c:62-74 | returns NF_DROP and changes no state |
| Hw1Secws.Hw1ChainVerdicts | hw1secws.c:81-100 | INPUT (NF_INET_LOCAL_IN) accepts and FORWARD (NF_INET_FORWARD) drops; both use PF_INET and NF_IP_PRI_FIRST |
| Hw1Secws.Hw1InputRefused | hw1secws.c:89-93 | when INPUT is refused, FORWARD is not attempted, nothing is registered, and INPUT's code is returned |
| Hw1Secws.Hw1ForwardTried | hw1secws.c:95-113 | when INPUT is accepted, FORWARD is attempted and its answer is the result; INPUT stays registered whatever that answer is |
| Hw1Secws.OutputNeverRegistered | hw1secws.c:76-114 | the OUTPUT chain is never attempted or registered |
| Hw1Secws.NoRollback | hw1secws.c:103-113 | when FORWARD is refused after INPUT was accepted, the init reports the error but INPUT stays registered |
| Hw1Secws.Module.constructor | hw1secws.c:33-34 | both descriptors start zero-initialised |
| Hw1Secws.Module.Init | hw1secws.c:76-114 | returns the first refusal code or 0; makes exactly the attempted registrations, in order, with their configuration; adds exactly the accepted descriptors to the registered set and removes none |
| Hw1Secws.Module.Exit | hw1secws.c:116-120 | unregisters INPUT and then FORWARD, unconditionally; OUTPUT is untouched |

## Left out

- Logging is not modelled: the `printk` calls in `log_accept`, `log_drop` and `zero_counters`, and all of hw1's `log_accept` and `log_drop` (hw1secws.c:38-46). They write only to the kernel log.
- Concurrency is not modelled. The counters are plain non-atomic `++`, and the model is sequential. It claims nothing about updates lost under concurrent hooks.
- The kernel functions are oracles only: `nf_register_net_hook`, `register_chrdev`, `class_create`, `device_create`, `device_create_file` and the release functions. Their real behaviour is outside the model, including what a double unregister does. The model assumes unregistering removes a descriptor and is harmless when it is absent.
- The kernel's registration results are one answer per descriptor rather than a sequence of results. Each descriptor is submitted at most once per call, so the two are equivalent.
- The hook functions' arguments (`priv`, `sk_buff`, `nf_hook_state`) are not modelled. They are never read.
- The `modify` buffer is modelled as the written bytes, so `count` is its length.
- `PAGE_SIZE` is taken as 4096.
- Registration boilerplate is not modelled: `DEVICE_ATTR`, `module_init`/`module_exit`, `MODULE_LICENSE`, `g_file_operations` and `init_net`.
- common.h is not part of this model. It holds only the `UNUSED_ARG` and `TRUE`/`FALSE` macros and `bool_t`, which the model writes as Dafny `bool`.
- hw2secws_stats.h is modelled only as the field types: two unsigned 32-bit counters. Its packing pragma has no behaviour.
- Pointers are modelled as `Null`, an error pointer or a live object. The model does not track the addresses of the objects the kernel creates.
