/** The scull driver's state as the C code holds it: the global quantum and
    the singly linked registration list with its `head` and `tail` pointers.
    Nodes live in an arena: node i holds the i-th allocated (pid, tgid) pair
    and its `next` pointer. */
module Driver {
  import opened Machine
  import opened Tasks
  import opened UserSpace
  import opened Ioc
  import opened ScullCommands
  import opened Ledger
  import Gateway

  /** A `struct Node *`: NULL or the node allocated i-th. */
  datatype Ptr = Null | Node(index: nat)

  class Device {
    /** `scull_quantum` */
    var quantum: int32
    /** The pid and tgid fields of each allocated node, in allocation order. */
    var nodes: seq<Entry>
    /** The `next` field of each allocated node. */
    var next: seq<Ptr>
    /** `l_list->head` and `l_list->tail` */
    var head: Ptr
    var tail: Ptr

    /** The list is a chain from head to tail through every node, in
        allocation order, and ends in NULL. */
    ghost predicate Linked()
      reads this
    {
      |next| == |nodes|
      && (forall i :: 0 <= i < |next| ==> next[i] == if i + 1 < |next| then Node(i + 1) else Null)
      && (|nodes| == 0 ==> head == Null && tail == Null)
      && (|nodes| > 0 ==> head == Node(0) && tail == Node(|nodes| - 1))
    }

    /** The list is well linked and records no pair twice. */
    ghost predicate Valid()
      reads this
    {
      Linked() && NoDup(nodes)
    }

    /** The state the ioctl semantics speaks about. */
    function Abstract(): Gateway.State
      reads this
    {
      Gateway.State(quantum, nodes)
    }

    /** Module load: the quantum parameter, and the list allocated with head
        and tail set to NULL. */
    constructor(loadQuantum: int32)
      ensures Valid()
      ensures quantum == loadQuantum && nodes == [] && head == Null && tail == Null
    {
      quantum := loadQuantum;
      nodes := [];
      next := [];
      head := Null;
      tail := Null;
    }

    /** The registration scan: from `head`, follow `next` until the pair is
        found or the list ends. */
    method IsRegistered(e: Entry) returns (found: bool)
      requires Linked()
      ensures found <==> e in nodes
    {
      var cur := head;
      found := false;
      while cur != Null
        invariant cur == Null || cur.index < |nodes|
        invariant e !in nodes[..if cur == Null then |nodes| else cur.index]
        decreases if cur == Null then 0 else |nodes| - cur.index
      {
        if nodes[cur.index] == e {
          found := true;
          break;
        }
        assert nodes[..cur.index + 1] == nodes[..cur.index] + [nodes[cur.index]];
        cur := next[cur.index];
      }
      assert !found ==> nodes[..|nodes|] == nodes;
    }

    /** The registration command's list update: a new pair gets a fresh
        node, linked as head and tail into an empty list, else after the
        tail. */
    method Register(cur: Task)
      requires Valid()
      modifies this
      ensures Valid()
      ensures nodes == AppendIfAbsent(old(nodes), Entry(cur.pid, cur.tgid))
      ensures quantum == old(quantum)
      ensures old(head) == Null ==> head == tail
      ensures |nodes| > |old(nodes)| ==> tail == Node(|old(nodes)|)
    {
      var e := Entry(cur.pid, cur.tgid);
      var found := IsRegistered(e);
      if !found {
        var newNode := Node(|nodes|);
        nodes := nodes + [e];
        next := next + [Null];
        if head == Null {
          head := newNode;
          tail := newNode;
        } else {
          next := next[tail.index := newNode];
          tail := next[tail.index];
        }
      }
    }

    /** `scull_ioctl`, proved to do what the ioctl semantics says. */
    method Ioctl(cmd: uint32, arg: uint64, mem: UserMem, cur: Task) returns (ret: int, mem': UserMem)
      requires Valid()
      modifies this
      ensures Valid()
      ensures Gateway.Ioctl(old(Abstract()), cmd, arg, mem, cur) == Gateway.Reply(ret, Abstract(), mem')
    {
      if Type(cmd) != SCULL_IOC_MAGIC {
        return -Gateway.ENOTTY, mem;
      }
      if Nr(cmd) > SCULL_IOC_MAXNR {
        return -Gateway.ENOTTY, mem;
      }
      var err := false;
      if HasRead(Dir(cmd)) {
        err := !AccessOk(mem, arg, Size(cmd));
      } else if HasWrite(Dir(cmd)) {
        err := !AccessOk(mem, arg, Size(cmd));
      }
      if err {
        return -EFAULT, mem;
      }
      ret, mem' := 0, mem;
      if cmd == SCULL_IOCRESET {
        quantum := Gateway.SCULL_QUANTUM;
      } else if cmd == SCULL_IOCSQUANTUM {
        var f := GetUser(mem, arg);
        quantum := f.value;
        ret := f.err;
      } else if cmd == SCULL_IOCTQUANTUM {
        quantum := ToInt32(arg);
      } else if cmd == SCULL_IOCGQUANTUM {
        var st := PutUser(mem, arg, quantum);
        ret, mem' := st.err, st.mem;
      } else if cmd == SCULL_IOCQQUANTUM {
        return quantum, mem;
      } else if cmd == SCULL_IOCXQUANTUM {
        var tmp := quantum;
        var f := GetUser(mem, arg);
        quantum := f.value;
        ret := f.err;
        if ret == 0 {
          var st := PutUser(mem, arg, tmp);
          ret, mem' := st.err, st.mem;
        }
      } else if cmd == SCULL_IOCHQUANTUM {
        var tmp := quantum;
        quantum := ToInt32(arg);
        return tmp, mem;
      } else if cmd == SCULL_IOCKQUANTUM {
        Register(cur);
        var c := CopyToUser(mem, arg, Snapshot(cur), TASK_INFO_SIZE);
        ret, mem' := c.notCopied, c.mem;
      } else {
        return -Gateway.ENOTTY, mem;
      }
    }

    /** The non-empty branch of the drain: print the banner; starting at the
        head, print and free every node that has a successor, advancing
        `head`; then print the last node (without an arrow) and free it
        through `head`. */
    method FreeFromHead() returns (t: seq<Event>)
      requires Linked() && head != Null
      modifies this
      ensures nodes == old(nodes) && tail == old(tail) && quantum == old(quantum)
      ensures t == FreedList(nodes)
    {
      t := [Log(Banner)];
      var taskNum := 1;
      while next[head.index] != Null
        invariant nodes == old(nodes) && next == old(next) && tail == old(tail) && quantum == old(quantum)
        invariant head.Node? && head.index < |nodes|
        invariant taskNum == head.index + 1
        invariant t == Walked(nodes, head.index)
        decreases |nodes| - head.index
      {
        t := t + [Log(TaskLine(taskNum, nodes[head.index].pid, nodes[head.index].tgid, true))];
        taskNum := taskNum + 1;
        var tempNode := head;
        head := next[head.index];
        t := t + [Release(NodeBlock(tempNode.index))];
      }
      if head != Null {
        t := t + [Log(TaskLine(taskNum, nodes[head.index].pid, nodes[head.index].tgid, false))];
        t := t + [Release(NodeBlock(head.index))];
      }
    }

    /** The drain of `scull_cleanup_module` as intended: each node freed once,
        then the list header. */
    method Drain() returns (t: seq<Event>)
      requires Valid()
      modifies this
      ensures nodes == old(nodes) && quantum == old(quantum)
      ensures t == DrainTrace(nodes)
    {
      if head == Null {
        t := [Log(EmptyList)];
      } else {
        t := FreeFromHead();
      }
      t := t + [Release(ListBlock)];
    }

    /** The drain as the source writes it: after the walk, `tail` is freed
        when it is not NULL, and it still points at the last node. */
    method DrainAsWritten() returns (t: seq<Event>)
      requires Valid()
      modifies this
      ensures nodes == old(nodes) && quantum == old(quantum)
      ensures t == DrainTraceAsWritten(nodes)
    {
      if head == Null {
        t := [Log(EmptyList)];
      } else {
        t := FreeFromHead();
        if tail != Null {
          t := t + [Release(NodeBlock(tail.index))];
        }
      }
      t := t + [Release(ListBlock)];
    }
  }
}
