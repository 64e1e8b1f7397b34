/** Machine integers of the C code: `int` and `pid_t` are 32-bit two's
    complement, `unsigned long` is 64-bit. */
module Machine {

  const INT32_MIN: int := -0x8000_0000
  const INT32_MAX: int := 0x7FFF_FFFF
  const WORD32: nat := 0x1_0000_0000
  const WORD64: nat := 0x1_0000_0000_0000_0000

  type int32 = x: int | INT32_MIN <= x <= INT32_MAX
  type uint32 = x: nat | x < WORD32
  type uint64 = x: nat | x < WORD64

  /** The conversion `(int) v`: keeps the low 32 bits and reads them as two's
      complement (gcc's documented behaviour for out-of-range values). */
  function ToInt32(v: int): (r: int32)
    ensures (r - v) % WORD32 == 0
    ensures INT32_MIN <= v <= INT32_MAX ==> r == v
  {
    var low := v % WORD32;
    if low <= INT32_MAX then low else low - WORD32
  }

  /** Two int32 values that agree in their low 32 bits are equal, so the
      conversion `(int) v` depends only on the low 32 bits of v. */
  lemma ToInt32Low(v: int, x: int32)
    requires (v - x) % WORD32 == 0
    ensures ToInt32(v) == x
  {
    var r := ToInt32(v);
    var q1, q2 := (v - x) / WORD32, (r - v) / WORD32;
    assert v - x == WORD32 * q1;
    assert r - v == WORD32 * q2;
    assert r - x == WORD32 * (q1 + q2);
  }

  /** An `int` passed through the variadic `unsigned long` argument keeps
      its low 32 bits, whatever fills the upper half, and converting it back
      gives the original value. */
  lemma IntThroughULong(x: int32, hi: nat)
    requires hi < WORD32
    ensures ToInt32(hi * WORD32 + x % WORD32) == x
  {
    ToInt32Low(hi * WORD32 + x % WORD32, x);
  }
}

/** The calling task (`current`) and the `struct task_info` snapshot that the
    registration command copies back to the caller. */
module Tasks {
  import opened Machine

  /** The attributes of `current` that the driver reads. */
  datatype Task = Task(
    state: int, stack: int, cpu: int,
    prio: int, staticPrio: int, normalPrio: int, rtPriority: int,
    pid: int32, tgid: int32,
    nvcsw: int, nivcsw: int)

  /** `struct task_info`, filled field by field from `current`. */
  datatype TaskInfo = TaskInfo(
    state: int, stack: int, cpu: int,
    prio: int, staticPrio: int, normalPrio: int, rtPriority: int,
    pid: int32, tgid: int32,
    nvcsw: int, nivcsw: int)

  /** The snapshot is a field-for-field copy of the task. */
  function Snapshot(t: Task): (info: TaskInfo)
    ensures info.pid == t.pid && info.tgid == t.tgid
  {
    TaskInfo(t.state, t.stack, t.cpu, t.prio, t.staticPrio, t.normalPrio, t.rtPriority,
             t.pid, t.tgid, t.nvcsw, t.nivcsw)
  }
}

/** The caller's address space as the driver sees it through the kernel's
    user-access primitives. */
module UserSpace {
  import opened Machine
  import opened Tasks

  const EFAULT: int := 14

  /** `limit` is the end of the user address range; `ints` holds the mapped,
      readable `int` cells; `writable` the addresses a store succeeds at;
      `infos` the `struct task_info` buffers the caller has received. */
  datatype UserMem = UserMem(limit: nat, ints: map<nat, int32>, writable: set<nat>, infos: map<nat, TaskInfo>)

  /** access_ok(addr, size): the range lies below the user limit. It does not
      say that the pages are mapped. */
  predicate AccessOk(mem: UserMem, addr: nat, size: nat) { addr + size <= mem.limit }

  /** The outcome of `__get_user(x, ptr)`: an error code and the value stored
      in `x`, which the kernel sets to zero on a fault. */
  datatype Fetch = Fetch(err: int, value: int32)

  function GetUser(mem: UserMem, addr: nat): Fetch
  {
    if addr in mem.ints then Fetch(0, mem.ints[addr]) else Fetch(-EFAULT, 0)
  }

  /** The outcome of `__put_user(v, ptr)`: an error code and the new memory. */
  datatype Store = Store(err: int, mem: UserMem)

  function PutUser(mem: UserMem, addr: nat, v: int32): (s: Store)
  {
    if addr in mem.writable then Store(0, mem.(ints := mem.ints[addr := v])) else Store(-EFAULT, mem)
  }

  /** `copy_to_user(to, &info, size)`: the number of bytes NOT copied, and the
      new memory. A copy either lands whole or not at all. */
  datatype Copy = Copy(notCopied: nat, mem: UserMem)

  function CopyToUser(mem: UserMem, addr: nat, info: TaskInfo, size: nat): (c: Copy)
  {
    if addr in mem.writable then Copy(0, mem.(infos := mem.infos[addr := info])) else Copy(size, mem)
  }

  /** A value stored with `__put_user` is what `__get_user` reads back. */
  lemma PutThenGet(mem: UserMem, addr: nat, v: int32)
    requires addr in mem.writable
    ensures GetUser(PutUser(mem, addr, v).mem, addr) == Fetch(0, v)
  {
  }
}
