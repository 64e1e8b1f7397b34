# scull: ioctl gateway, registration ledger and client validator

A model of the scull teaching driver and of its command-line client.

The driver keeps two pieces of shared state:

- the integer `scull_quantum`;
- a singly linked list of the (pid, tgid) pairs of the tasks that have
  registered through the `SCULL_IOCKQUANTUM` command.

`scull_ioctl` runs two checks, then dispatches:

1. it checks the command's type and number;
2. it checks the user buffer that the direction bits imply.

The eight quantum and registration verbs follow. At module unload the list
is drained head to tail: each node is printed and freed. The client's
`parse_arguments` turns `argv` into a command code and sets `g_quantum`,
or prints its usage text and exits.

Modules:

- `Ioc` is the Linux `_IOC` command word, with encoding and decoding
  proved inverse. `ScullCommands` is the scull command set.
- `Machine`, `Tasks` and `UserSpace` hold the C integer widths, the calling
  task and its snapshot record, and the caller's memory. In `UserSpace`,
  `access_ok`, `__get_user`, `__put_user` and `copy_to_user` return explicit
  success or failure.
- `Ledger` is the registration list as a sequence of pairs, head first.
  It also holds the event trace (log lines and releases) of the drain, both
  as intended and as written; `Releases` counts how often a trace frees each
  block.
- `Gateway.Ioctl` is the ioctl semantics: a function from the state, the
  command, the argument, the caller's memory and the current task to the
  return value, the new state and the new memory.
- `Driver.Device` is the driver's state as the C code keeps it:
  - `quantum`;
  - the nodes;
  - their `next` pointers;
  - `head` and `tail`.

  Its methods are proved against `Gateway.Ioctl` and the drain traces. They
  are the stepwise ioctl, the deduplicating scan that follows `next` pointers,
  the tail append, and the drain loop that advances `head`.
- `Client.Program.ParseArguments` is the imperative validator, proved equal
  to the case-by-case reference `Client.Parse`.

Where the code and the intended design differ, the model follows the code
and the difference is recorded under "## Findings". The code differs from
the intended design in four ways:

- The drain frees the last node twice.
- An out-of-range count skips the usage exit.
- The registration scan runs outside the lock.
- The registration command returns the number of bytes not copied, rather
  than -EFAULT.

The last two are not findings. The ioctl is treated as one atomic step, and
the return value is modelled as written.

Assumed values. The header that defines the command words is not part of
this model, so the usual values are assumed:

- magic `'k'`, maximum number 7 and default quantum 4000;
- reset, tell, query and shift as `_IO` numbers 0, 2, 4 and 6;
- set as `_IOW` 1 (int); get as `_IOR` 3 (int); exchange as `_IOWR` 5 (int);
- register as `_IOR` 7 over a 64-byte `struct task_info`.

`access_ok` is a range check below the user limit. Its read and write
flavours test the same range, as they do in the kernel. On a fault,
`__get_user` zeroes its destination, so a set or exchange whose read faults
leaves the quantum 0. `scull_quantum = arg` keeps the low 32 bits of the
argument as a two's-complement `int`.

## Model

| member | source | states |
|---|---|---|
| Ioc.DecodeEncode | driver/scull.c:108-123 | The `_IOC_DIR`, `_IOC_TYPE`, `_IOC_NR` and `_IOC_SIZE` fields the checks read off a command are exactly the fields it was packed from |
| Ioc.EncodeDecode | driver/scull.c:108-123 | Every 32-bit command word is the packing of its four decoded fields, so the decoders lose nothing |
| ScullCommands.Commands | driver/scull.c:125-215 | The eight cases of the switch are 32-bit words of scull's magic type, numbered 0 to 7 in switch order |
| ScullCommands.CommandsWellFormed | driver/scull.c:108-109 | Every case passes the number check, and no two cases share a word |
| ScullCommands.CommandLayout | driver/scull.c:117-123 | The type, number, direction and size each command carries into the checks |
| Machine.ToInt32 | driver/scull.c:135-136 | Storing the `unsigned long` argument in the `int` quantum agrees with it modulo 2^32, and keeps any value that fits |
| Machine.ToInt32Low | driver/scull.c:135-136 | The stored `int` depends only on the low 32 bits of the argument: any argument agreeing with an `int` modulo 2^32 stores exactly that `int` |
| Machine.IntThroughULong | src/scull.c:182 | An `int` passed as the argument keeps its low 32 bits whatever the upper half holds, and storing it back as an `int` gives the original value |
| Tasks.Snapshot | driver/scull.c:198-208 | The snapshot record carries the caller's pid and tgid |
| UserSpace.PutThenGet | driver/scull.c:146-151 | A value written by `__put_user` is what `__get_user` reads back |
| Gateway.Ioctl | driver/scull.c:92-218 | A command of the wrong type or number returns -ENOTTY before any access check, with state and memory unchanged. A buffer outside user space returns -EFAULT with nothing changed. No call introduces a duplicate pair. The ledger changes only by appending the caller's pair on the registration command. Only reset, set, tell, exchange and shift can change the quantum |
| Gateway.UnlistedCommandUnsupported | driver/scull.c:213-214 | A word that passes both checks but is none of the eight commands falls to the default branch: -ENOTTY, nothing changed |
| Gateway.AccessCheckPerCommand | driver/scull.c:117-123 | Commands without a buffer always pass the access check; set, get and exchange pass exactly when the 4-byte int lies in user space, registration when the 64-byte record does |
| Gateway.ResetRestoresDefault | driver/scull.c:127-129 | Reset sets the quantum to 4000, returns 0 and changes nothing else |
| Gateway.SetReadsPointer | driver/scull.c:131-133 | Set stores the user's int and returns 0; a faulting read returns -EFAULT and leaves the quantum 0 |
| Gateway.TellStoresValue | driver/scull.c:135-137 | Tell stores the argument truncated to an `int` and returns 0, changing nothing else; any argument whose low 32 bits are those of an `int` stores that `int` |
| Gateway.GetWritesPointer | driver/scull.c:139-141 | Get leaves the driver state alone; a writable cell is set to the quantum, the rest of user memory unchanged, and the call returns 0; otherwise -EFAULT with memory unchanged |
| Gateway.QueryReturnsValue | driver/scull.c:143-144 | Query returns the quantum and changes nothing |
| Gateway.ExchangeSwaps | driver/scull.c:146-151 | When both accesses succeed, the quantum becomes the user's old value, the user's cell the old quantum, and nothing else changes; a failed read skips the write-back and leaves memory unchanged |
| Gateway.ShiftReturnsPrevious | driver/scull.c:153-156 | Shift stores the argument truncated to an `int` and returns the previous quantum; an argument whose low 32 bits are those of an `int` stores that `int` |
| Gateway.RegisterAppendsOnce | driver/scull.c:158-211 | Registration appends the caller's pair exactly when it is absent, keeps the quantum, and returns 0 with the snapshot stored and the rest of memory unchanged, or the full size with memory unchanged when the buffer is not writable |
| Gateway.RegisterTwice | driver/scull.c:160-196 | A second registration of the same caller changes no state and still delivers the snapshot |
| Gateway.ResetThenQuery | driver/scull.c:127-144 | Reset followed by query returns the default quantum |
| Gateway.TellThenQuery | driver/scull.c:135-144 | Tell 7 followed by query returns 7 |
| Gateway.ExchangeThenQuery | driver/scull.c:143-151 | With quantum 7 and 5 in the user's cell, exchange leaves the cell at 7 and the quantum at 5, which a following query returns |
| Gateway.ShiftExample | driver/scull.c:153-156 | With quantum 5, shifting in 3 returns 5 and leaves 3 |
| Ledger.AppendIfAbsent | driver/scull.c:160-196 | The pair is in the ledger afterwards, and only it is added. The ledger is unchanged exactly when the pair was present. A new pair goes at the tail. The ledger stays duplicate-free |
| Ledger.AppendIfAbsentIdempotent | driver/scull.c:164-174 | Registering the same pair twice gives the ledger that registering it once does |
| Ledger.RegisteredOnce | driver/scull.c:164-196 | After registration the pair occurs exactly once in a duplicate-free ledger |
| Ledger.RegisterAll | driver/scull.c:174-196 | A run of registrations keeps the ledger duplicate-free and extends it. Its members are the old ones plus the registered pairs |
| Ledger.RegisterAllFresh | driver/scull.c:174-195 | N registrations of distinct new pairs add exactly N entries, in the order they landed |
| Ledger.RegisterAllOrderIndependent | driver/scull.c:184-194 | Whatever order the same registrations land in, the ledger holds the same pairs and has the same length |
| Ledger.DrainEmpty | driver/scull.c:248-249 | An empty ledger only reports that the list is empty and then frees the header, in both the intended and the as-written drain |
| Ledger.DrainOrder | driver/scull.c:252-269 | A non-empty drain prints the banner, then visits the ledger head to tail. Node i's line is numbered i + 1, carries an arrow exactly when the node is not the last, and is followed by that node's release. The header is released last |
| Ledger.DrainReleasesEachOnce | driver/scull.c:248-276 | The intended drain frees every node exactly once and the header once, for the empty ledger and when head equals tail too |
| Ledger.AsWrittenReleasesLastTwice | driver/scull.c:266-273 | The drain as written frees the last node twice, for every non-empty ledger |
| Ledger.AsWrittenOrder | driver/scull.c:248-276 | The drain as written walks the ledger exactly as the intended one (same order, numbering and arrows), then frees the last node a second time and the header last |
| Driver.Device.constructor | driver/scull.c:288-291 | Module load: the quantum parameter, and an empty list with head and tail NULL |
| Driver.Device.IsRegistered | driver/scull.c:160-173 | The scan from `head` along `next` pointers finds the pair exactly when the ledger holds it |
| Driver.Device.Register | driver/scull.c:174-196 | The list update is the ledger's append-if-absent. The list stays linked head to tail and duplicate-free. An empty list gets head equal to tail. A new node becomes the tail |
| Driver.Device.Ioctl | driver/scull.c:92-218 | The stepwise ioctl on the fields returns, stores and writes exactly what `Gateway.Ioctl` says, and keeps the list well linked and duplicate-free |
| Driver.Device.FreeFromHead | driver/scull.c:252-269 | The loop advancing `head` logs and frees the banner-led node sequence of the ledger, leaving the nodes, `tail` and the quantum alone |
| Driver.Device.Drain | driver/scull.c:248-276 | The drain without the second tail release produces the intended trace and leaves the quantum alone |
| Driver.Device.DrainAsWritten | driver/scull.c:248-276 | The drain as written, with its extra `kfree(tail)`, produces the as-written trace and leaves the quantum alone |
| Client.Parse | src/scull.c:38-104 | The decision `parse_arguments` makes, case by case; what it returns is -1 or a code of the operation switch, it exits with success only for h, and it changes `g_quantum` only to store the argument of a letter that takes one |
| Client.ParseIntended | src/scull.c:99-102 | The corrected validator returns only codes the operation switch handles |
| Client.Program.constructor | src/scull.c:16 | The client starts with the static `g_quantum` zero |
| Client.Program.ParseArguments | src/scull.c:38-104 | The imperative validator returns or exits, and sets `g_quantum`, exactly as the case-by-case `Parse` says |
| Client.TooFewArguments | src/scull.c:42-46 | Fewer than two arguments: usage and EXIT_FAILURE, `g_quantum` untouched |
| Client.OnlyFirstCharacter | src/scull.c:49 | Arguments with the same first character parse alike |
| Client.MissingArgument | src/scull.c:51-60 | A letter that needs an argument but has none leads to usage and EXIT_FAILURE |
| Client.CountOutOfRangeReturns | src/scull.c:61-79 | For S, T, H, p and t with an argument, `g_quantum` takes the value. The result is -1, returned without usage or exit, exactly when the value is outside 1..10; otherwise it is the letter |
| Client.ExchangeAcceptsAny | src/scull.c:80-87 | X with an argument accepts any integer and stores it |
| Client.PlainCommands | src/scull.c:88-92 | R, G and Q need no argument and come back as the command code |
| Client.HelpExitsSuccess | src/scull.c:99-102 | h prints usage and exits with EXIT_SUCCESS |
| Client.OtherLettersRefused | src/scull.c:93-95 | Any other first character, K included, leads to usage and EXIT_FAILURE |
| Client.OutOfRangeEscapes | src/scull.c:61-65 | `S 11` returns -1 to the caller, which no operation handles, where the intended validator exits with failure |
| Client.IntendedAgreesElsewhere | src/scull.c:61-102 | The corrected validator differs from the code only on the out-of-range path, which it turns into usage and EXIT_FAILURE |

## Left out

- The mutex (driver/scull.c:87, 184-194) and all concurrency. Each ioctl
  call is one atomic step. In the code, the deduplicating scan and the
  allocation run outside the lock (lines 162-180). Concurrent registrations
  could therefore both append the same pair. The model does not show this.
  `Ledger.RegisterAllOrderIndependent` covers only the landing orders of
  whole calls.
- The unsynchronised quantum, which interleaves differently across
  concurrent callers. Calls are sequential in the model.
- The header with the command definitions and `SCULL_QUANTUM` is not part of
  this model; the values above are assumed.
- `access_ok_version.h` is not part of this model. `access_ok` is a plain
  range check and ignores the read/write flavour.
- UserSpace.CopyToUser: a partial copy is not modelled. The copy lands
  whole or not at all.
- UserSpace.UserMem keeps `int` cells and `struct task_info` buffers in two
  separate maps, so a 64-byte copy cannot overlap `int` cells. Whether a
  whole buffer is mapped or writable is decided by its first address alone.
  The "rest of memory unchanged" clauses of `Gateway.GetWritesPointer`,
  `Gateway.ExchangeSwaps` and `Gateway.RegisterAppendsOnce`, and the return
  of 0 from `Gateway.RegisterAppendsOnce` whenever the buffer's first address
  is writable, hold at this cell granularity only. In a byte-level memory a
  4-byte store or the 64-byte copy would change overlapping cells, and a
  partly writable buffer would make the copy return a non-zero count.
- On x86-64 the client passes its `int` through a variadic `ioctl` call, so
  the upper half of the `unsigned long` argument is not guaranteed.
  `Gateway.TellStoresValue` and `Gateway.ShiftReturnsPrevious` are stated
  for every argument, and the stored value depends only on its low 32 bits.
- `kmalloc` failure is not modelled (driver/scull.c:177, 289). The code
  never checks for it.
- The snapshot fields other than pid and tgid are copied opaquely from the
  task record. The kernel's `current` is a parameter.
- `printk` text is reduced to the events that matter: the empty notice, the
  banner, and each task line's number, pid, tgid and arrow. The level and
  exact wording of the messages are dropped.
- After the drain, `head` still points at freed memory and the header itself
  is freed. The model does not track use after free; it records the release
  trace.
- `scull_open`, `scull_release`, and the chrdev and cdev registration and
  removal are not modelled.
- In the client, the usage text and the messages on stderr are not
  modelled. `atoi` is applied before `parse_arguments`. `do_op`, `k_case`,
  `thread_k_case` and `main` are not modelled; they do device I/O, `fork`,
  `wait` and threads.

## Findings

| source | as written | input that shows it | evidently intended | confidence | as-written member | corrected member |
|---|---|---|---|---|---|---|
| driver/scull.c:266-273 | When the walk stops at the last node, lines 266-268 free it through `head`. `tail` still points at the same node, so lines 271-273 free it again | Any non-empty ledger, e.g. after one registration | Free each node once: the walk already frees the tail | not executed | Ledger.AsWrittenReleasesLastTwice | Ledger.DrainReleasesEachOnce |
| src/scull.c:61-65 | A count outside 1..10 makes `parse_arguments` return -1 at once, skipping the usage exit at lines 99-102. `main` then passes -1 to `do_op`, whose default branch calls `abort()` (src/scull.c:247-249). The same holds at lines 74-78 | `scull S 11` | Print usage and exit with EXIT_FAILURE, as for a missing count | not executed | Client.OutOfRangeEscapes | Client.ParseIntended |

The drain methods follow the same split. `Driver.Device.DrainAsWritten`
runs the code as written. `Driver.Device.Drain` is the corrected drain.
