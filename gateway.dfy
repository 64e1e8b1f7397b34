/** What one scull ioctl call does, as a function from the device state, the
    command word, the argument and the caller's memory to the return value and
    the new state and memory. The class in module Driver runs the same
    decisions step by step on its fields and is proved equal to this. */
module Gateway {
  import opened Machine
  import opened Tasks
  import opened UserSpace
  import opened Ioc
  import opened ScullCommands
  import opened Ledger

  const ENOTTY: int := 25

  /** The default quantum, restored by the reset command. */
  const SCULL_QUANTUM: int32 := 4000

  /** The driver's shared state: `scull_quantum` and the registration ledger. */
  datatype State = State(quantum: int32, ledger: seq<Entry>)

  /** The value `scull_ioctl` returns, the state after the call and the
      caller's memory after the call. */
  datatype Reply = Reply(ret: int, state: State, mem: UserMem)

  /** The first check: the command belongs to scull and its number is in range. */
  predicate Recognised(cmd: uint32)
  {
    Type(cmd) == SCULL_IOC_MAGIC && Nr(cmd) <= SCULL_IOC_MAXNR
  }

  /** The second check: when the direction says a user buffer is read or
      written, that buffer lies in user space. Both directions test the same
      range. */
  predicate AccessGranted(cmd: uint32, arg: uint64, mem: UserMem)
  {
    if HasRead(Dir(cmd)) then AccessOk(mem, arg, Size(cmd))
    else if HasWrite(Dir(cmd)) then AccessOk(mem, arg, Size(cmd))
    else true
  }

  /** `scull_ioctl`. */
  function Ioctl(s: State, cmd: uint32, arg: uint64, mem: UserMem, cur: Task): (r: Reply)
    ensures !Recognised(cmd) ==> r == Reply(-ENOTTY, s, mem)
    ensures Recognised(cmd) && !AccessGranted(cmd, arg, mem) ==> r == Reply(-EFAULT, s, mem)
    ensures NoDup(s.ledger) ==> NoDup(r.state.ledger)
    ensures r.state.ledger == s.ledger
      || (cmd == SCULL_IOCKQUANTUM && r.state.ledger == s.ledger + [Entry(cur.pid, cur.tgid)])
    ensures r.state.quantum != s.quantum ==>
      cmd in {SCULL_IOCRESET, SCULL_IOCSQUANTUM, SCULL_IOCTQUANTUM, SCULL_IOCXQUANTUM, SCULL_IOCHQUANTUM}
  {
    if Type(cmd) != SCULL_IOC_MAGIC then Reply(-ENOTTY, s, mem)
    else if Nr(cmd) > SCULL_IOC_MAXNR then Reply(-ENOTTY, s, mem)
    else if !AccessGranted(cmd, arg, mem) then Reply(-EFAULT, s, mem)
    else Dispatch(s, cmd, arg, mem, cur)
  }

  /** The switch over the command word, once both checks have passed. */
  function Dispatch(s: State, cmd: uint32, arg: uint64, mem: UserMem, cur: Task): (r: Reply)
  {
    if cmd == SCULL_IOCRESET then
      Reply(0, s.(quantum := SCULL_QUANTUM), mem)
    else if cmd == SCULL_IOCSQUANTUM then
      var f := GetUser(mem, arg);
      Reply(f.err, s.(quantum := f.value), mem)
    else if cmd == SCULL_IOCTQUANTUM then
      Reply(0, s.(quantum := ToInt32(arg)), mem)
    else if cmd == SCULL_IOCGQUANTUM then
      var st := PutUser(mem, arg, s.quantum);
      Reply(st.err, s, st.mem)
    else if cmd == SCULL_IOCQQUANTUM then
      Reply(s.quantum, s, mem)
    else if cmd == SCULL_IOCXQUANTUM then
      var tmp := s.quantum;
      var f := GetUser(mem, arg);
      if f.err == 0 then
        var st := PutUser(mem, arg, tmp);
        Reply(st.err, s.(quantum := f.value), st.mem)
      else
        Reply(f.err, s.(quantum := f.value), mem)
    else if cmd == SCULL_IOCHQUANTUM then
      Reply(s.quantum, s.(quantum := ToInt32(arg)), mem)
    else if cmd == SCULL_IOCKQUANTUM then
      var c := CopyToUser(mem, arg, Snapshot(cur), TASK_INFO_SIZE);
      Reply(c.notCopied, s.(ledger := AppendIfAbsent(s.ledger, Entry(cur.pid, cur.tgid))), c.mem)
    else
      Reply(-ENOTTY, s, mem)
  }

  // ---------------------------------------------------------------------
  // The checks

  /** A recognised word with the right type and number that is none of the
      eight commands falls to the default branch: -ENOTTY, nothing changed. */
  lemma UnlistedCommandUnsupported(s: State, cmd: uint32, arg: uint64, mem: UserMem, cur: Task)
    requires Recognised(cmd) && AccessGranted(cmd, arg, mem)
    requires cmd !in Commands()
    ensures Ioctl(s, cmd, arg, mem, cur) == Reply(-ENOTTY, s, mem)
  {
    var cs := Commands();
    assert cs[0] == SCULL_IOCRESET && cs[1] == SCULL_IOCSQUANTUM && cs[2] == SCULL_IOCTQUANTUM
      && cs[3] == SCULL_IOCGQUANTUM && cs[4] == SCULL_IOCQQUANTUM && cs[5] == SCULL_IOCXQUANTUM
      && cs[6] == SCULL_IOCHQUANTUM && cs[7] == SCULL_IOCKQUANTUM;
  }

  /** The memory checks never reject a command without a user buffer, and
      reject a buffer command exactly when the buffer leaves user space. */
  lemma AccessCheckPerCommand(arg: uint64, mem: UserMem)
    ensures AccessGranted(SCULL_IOCRESET, arg, mem) && AccessGranted(SCULL_IOCTQUANTUM, arg, mem)
      && AccessGranted(SCULL_IOCQQUANTUM, arg, mem) && AccessGranted(SCULL_IOCHQUANTUM, arg, mem)
    ensures AccessGranted(SCULL_IOCSQUANTUM, arg, mem) <==> arg + INT_SIZE <= mem.limit
    ensures AccessGranted(SCULL_IOCGQUANTUM, arg, mem) <==> arg + INT_SIZE <= mem.limit
    ensures AccessGranted(SCULL_IOCXQUANTUM, arg, mem) <==> arg + INT_SIZE <= mem.limit
    ensures AccessGranted(SCULL_IOCKQUANTUM, arg, mem) <==> arg + TASK_INFO_SIZE <= mem.limit
  {
    CommandLayout();
  }

  // ---------------------------------------------------------------------
  // One lemma per verb

  /** Reset restores the default quantum and returns 0, whatever the argument. */
  lemma ResetRestoresDefault(s: State, arg: uint64, mem: UserMem, cur: Task)
    ensures Ioctl(s, SCULL_IOCRESET, arg, mem, cur) == Reply(0, State(SCULL_QUANTUM, s.ledger), mem)
  {
    CommandLayout();
  }

  /** Set reads the new quantum from the user pointer. A read that faults
      returns -EFAULT and leaves the quantum zero, as `__get_user` zeroes its
      destination on a fault. */
  lemma SetReadsPointer(s: State, arg: uint64, mem: UserMem, cur: Task)
    requires AccessOk(mem, arg, INT_SIZE)
    ensures arg in mem.ints ==>
      Ioctl(s, SCULL_IOCSQUANTUM, arg, mem, cur) == Reply(0, s.(quantum := mem.ints[arg]), mem)
    ensures arg !in mem.ints ==>
      Ioctl(s, SCULL_IOCSQUANTUM, arg, mem, cur) == Reply(-EFAULT, s.(quantum := 0), mem)
  {
    CommandLayout();
  }

  /** Tell stores the argument itself, truncated to an int, and returns 0.
      Only the low 32 bits of the argument matter, so an int handed over by
      the caller comes back unchanged however the upper half was filled. */
  lemma TellStoresValue(s: State, arg: uint64, v: int32, mem: UserMem, cur: Task)
    ensures Ioctl(s, SCULL_IOCTQUANTUM, arg, mem, cur) == Reply(0, s.(quantum := ToInt32(arg)), mem)
    ensures (arg - v) % WORD32 == 0 ==> Ioctl(s, SCULL_IOCTQUANTUM, arg, mem, cur) == Reply(0, s.(quantum := v), mem)
  {
    CommandLayout();
    if (arg - v) % WORD32 == 0 {
      ToInt32Low(arg, v);
    }
  }

  /** Get writes the quantum to the user pointer and changes no driver
      state; only that one cell of user memory changes. */
  lemma GetWritesPointer(s: State, arg: uint64, mem: UserMem, cur: Task)
    requires AccessOk(mem, arg, INT_SIZE)
    ensures arg in mem.writable ==>
      Ioctl(s, SCULL_IOCGQUANTUM, arg, mem, cur) == Reply(0, s, mem.(ints := mem.ints[arg := s.quantum]))
    ensures arg !in mem.writable ==>
      Ioctl(s, SCULL_IOCGQUANTUM, arg, mem, cur) == Reply(-EFAULT, s, mem)
  {
    CommandLayout();
  }

  /** Query returns the quantum and changes nothing. */
  lemma QueryReturnsValue(s: State, arg: uint64, mem: UserMem, cur: Task)
    ensures Ioctl(s, SCULL_IOCQQUANTUM, arg, mem, cur) == Reply(s.quantum, s, mem)
  {
    CommandLayout();
  }

  /** Exchange: when both accesses succeed the quantum becomes the user's
      value and the user's cell the old quantum, and nothing else changes.
      The write-back is attempted only after a successful read: a faulting
      read leaves memory alone. */
  lemma ExchangeSwaps(s: State, arg: uint64, mem: UserMem, cur: Task)
    requires AccessOk(mem, arg, INT_SIZE)
    ensures arg in mem.ints && arg in mem.writable ==>
      Ioctl(s, SCULL_IOCXQUANTUM, arg, mem, cur)
      == Reply(0, s.(quantum := mem.ints[arg]), mem.(ints := mem.ints[arg := s.quantum]))
    ensures arg in mem.ints && arg !in mem.writable ==>
      Ioctl(s, SCULL_IOCXQUANTUM, arg, mem, cur) == Reply(-EFAULT, s.(quantum := mem.ints[arg]), mem)
    ensures arg !in mem.ints ==>
      Ioctl(s, SCULL_IOCXQUANTUM, arg, mem, cur) == Reply(-EFAULT, s.(quantum := 0), mem)
  {
    CommandLayout();
  }

  /** Shift stores the argument, truncated to an int, and returns the
      previous quantum; an int handed over by the caller is stored unchanged. */
  lemma ShiftReturnsPrevious(s: State, arg: uint64, v: int32, mem: UserMem, cur: Task)
    ensures Ioctl(s, SCULL_IOCHQUANTUM, arg, mem, cur) == Reply(s.quantum, s.(quantum := ToInt32(arg)), mem)
    ensures (arg - v) % WORD32 == 0 ==>
      Ioctl(s, SCULL_IOCHQUANTUM, arg, mem, cur) == Reply(s.quantum, s.(quantum := v), mem)
  {
    CommandLayout();
    if (arg - v) % WORD32 == 0 {
      ToInt32Low(arg, v);
    }
  }

  /** Register appends the caller's pair at the tail exactly when it is new,
      never touches the quantum, and copies the snapshot back whether or not
      the pair was new; the return value is the count of bytes not copied. */
  lemma RegisterAppendsOnce(s: State, arg: uint64, mem: UserMem, cur: Task)
    requires AccessOk(mem, arg, TASK_INFO_SIZE)
    ensures var r := Ioctl(s, SCULL_IOCKQUANTUM, arg, mem, cur);
      var e := Entry(cur.pid, cur.tgid);
      r.state.quantum == s.quantum
      && (e in s.ledger ==> r.state.ledger == s.ledger)
      && (e !in s.ledger ==> r.state.ledger == s.ledger + [e])
      && (arg in mem.writable ==> r.ret == 0 && r.mem == mem.(infos := mem.infos[arg := Snapshot(cur)]))
      && (arg !in mem.writable ==> r.ret == TASK_INFO_SIZE && r.mem == mem)
  {
    CommandLayout();
  }

  /** Registering twice in a row leaves the ledger as registering once did,
      and the second call still delivers the snapshot. */
  lemma RegisterTwice(s: State, arg: uint64, mem: UserMem, cur: Task)
    requires AccessOk(mem, arg, TASK_INFO_SIZE) && arg in mem.writable
    ensures var r1 := Ioctl(s, SCULL_IOCKQUANTUM, arg, mem, cur);
      var r2 := Ioctl(r1.state, SCULL_IOCKQUANTUM, arg, r1.mem, cur);
      r2.state == r1.state && r2.ret == 0 && r2.mem.infos[arg] == Snapshot(cur)
  {
    CommandLayout();
    AppendIfAbsentIdempotent(s.ledger, Entry(cur.pid, cur.tgid));
  }

  // ---------------------------------------------------------------------
  // Sequences of calls

  lemma ResetThenQuery(s: State, arg: uint64, arg': uint64, mem: UserMem, cur: Task)
    ensures var r := Ioctl(s, SCULL_IOCRESET, arg, mem, cur);
      Ioctl(r.state, SCULL_IOCQQUANTUM, arg', r.mem, cur).ret == SCULL_QUANTUM
  {
    ResetRestoresDefault(s, arg, mem, cur);
    QueryReturnsValue(State(SCULL_QUANTUM, s.ledger), arg', mem, cur);
  }

  lemma TellThenQuery(s: State, arg': uint64, mem: UserMem, cur: Task)
    ensures var r := Ioctl(s, SCULL_IOCTQUANTUM, 7, mem, cur);
      Ioctl(r.state, SCULL_IOCQQUANTUM, arg', r.mem, cur).ret == 7
  {
    TellStoresValue(s, 7, 7, mem, cur);
    QueryReturnsValue(s.(quantum := 7), arg', mem, cur);
  }

  /** With quantum 7 and 5 in the user's cell, exchange leaves the cell at 7
      and the quantum at 5, which a following query returns. */
  lemma ExchangeThenQuery(s: State, arg: uint64, arg': uint64, mem: UserMem, cur: Task)
    requires s.quantum == 7
    requires AccessOk(mem, arg, INT_SIZE) && arg in mem.ints && arg in mem.writable && mem.ints[arg] == 5
    ensures var r := Ioctl(s, SCULL_IOCXQUANTUM, arg, mem, cur);
      r.ret == 0 && GetUser(r.mem, arg) == Fetch(0, 7) && r.state.quantum == 5
      && Ioctl(r.state, SCULL_IOCQQUANTUM, arg', r.mem, cur).ret == 5
  {
    ExchangeSwaps(s, arg, mem, cur);
    var r := Ioctl(s, SCULL_IOCXQUANTUM, arg, mem, cur);
    QueryReturnsValue(r.state, arg', r.mem, cur);
  }

  /** With quantum 5, shifting in 3 returns 5 and leaves 3. */
  lemma ShiftExample(s: State, mem: UserMem, cur: Task)
    requires s.quantum == 5
    ensures Ioctl(s, SCULL_IOCHQUANTUM, 3, mem, cur) == Reply(5, s.(quantum := 3), mem)
  {
    ShiftReturnsPrevious(s, 3, 3, mem, cur);
  }
}
