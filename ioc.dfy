/** The Linux ioctl command word and the scull command set.

    A command is a 32-bit unsigned word that packs four bit fields, from the
    least significant end: the command number (8 bits), the type or "magic"
    (8 bits), the payload size (14 bits) and the transfer direction (2 bits).
    The direction is user-oriented: WRITE means the caller hands data to the
    driver, READ means the driver hands data back. */
module Ioc {

  const IOC_NONE: nat := 0
  const IOC_WRITE: nat := 1
  const IOC_READ: nat := 2

  /** The width of a command word. */
  const CMD_LIMIT: nat := 0x1_0000_0000

  /** _IOC(dir, type, nr, size): packs the four fields into one command word. */
  function Encode(dir: nat, typ: nat, nr: nat, size: nat): (cmd: nat)
    requires dir < 4 && typ < 0x100 && nr < 0x100 && size < 0x4000
    ensures cmd < CMD_LIMIT
  {
    ((dir * 0x4000 + size) * 0x100 + typ) * 0x100 + nr
  }

  /** _IOC_NR(cmd) */
  function Nr(cmd: nat): nat { cmd % 0x100 }

  /** _IOC_TYPE(cmd) */
  function Type(cmd: nat): nat { (cmd / 0x100) % 0x100 }

  /** _IOC_SIZE(cmd) */
  function Size(cmd: nat): nat { (cmd / 0x1_0000) % 0x4000 }

  /** _IOC_DIR(cmd) */
  function Dir(cmd: nat): nat { (cmd / 0x4000_0000) % 4 }

  /** `dir & _IOC_READ` and `dir & _IOC_WRITE` for a two-bit direction. */
  predicate HasRead(dir: nat) { (dir / 2) % 2 == 1 }
  predicate HasWrite(dir: nat) { dir % 2 == 1 }

  /** Decoding a packed command gives back every field. */
  lemma DecodeEncode(dir: nat, typ: nat, nr: nat, size: nat)
    requires dir < 4 && typ < 0x100 && nr < 0x100 && size < 0x4000
    ensures Dir(Encode(dir, typ, nr, size)) == dir
    ensures Type(Encode(dir, typ, nr, size)) == typ
    ensures Nr(Encode(dir, typ, nr, size)) == nr
    ensures Size(Encode(dir, typ, nr, size)) == size
  {
    var hi := dir * 0x4000 + size;
    var mid := hi * 0x100 + typ;
    var cmd := mid * 0x100 + nr;
    assert cmd == Encode(dir, typ, nr, size);
    DivModOf(cmd, mid, nr, 0x100);
    DivModOf(mid, hi, typ, 0x100);
    DivModOf(hi, dir, size, 0x4000);
    assert cmd / 0x1_0000 == hi by { DivDiv(cmd, 0x100, 0x100); }
    assert cmd / 0x4000_0000 == dir by { DivDiv(cmd, 0x1_0000, 0x4000); }
    assert dir % 4 == dir;
  }

  /** Every 32-bit word is the packing of its own fields: the decoders lose nothing. */
  lemma EncodeDecode(cmd: nat)
    requires cmd < CMD_LIMIT
    ensures Dir(cmd) < 4 && Type(cmd) < 0x100 && Nr(cmd) < 0x100 && Size(cmd) < 0x4000
    ensures Encode(Dir(cmd), Type(cmd), Nr(cmd), Size(cmd)) == cmd
  {
    var mid := cmd / 0x100;
    var hi := mid / 0x100;
    assert cmd == mid * 0x100 + cmd % 0x100;
    assert mid == hi * 0x100 + mid % 0x100;
    assert hi == (hi / 0x4000) * 0x4000 + hi % 0x4000;
    assert cmd / 0x1_0000 == hi by { DivDiv(cmd, 0x100, 0x100); }
    assert cmd / 0x4000_0000 == hi / 0x4000 by { DivDiv(cmd, 0x1_0000, 0x4000); }
    assert hi / 0x4000 < 4;
  }

  /** Euclidean division is determined by quotient and remainder. */
  lemma DivModOf(x: nat, q: nat, r: nat, m: nat)
    requires 0 < m && r < m && x == q * m + r
    ensures x / m == q && x % m == r
  {
    var q', r' := x / m, x % m;
    assert x == q' * m + r';
    if q' > q {
      assert q' * m >= (q + 1) * m by { MulMono(q + 1, q', m); }
    } else if q' < q {
      assert q * m >= (q' + 1) * m by { MulMono(q' + 1, q, m); }
    }
  }

  lemma MulMono(a: nat, b: nat, m: nat)
    requires a <= b
    ensures a * m <= b * m
  {
  }

  /** Dividing twice is dividing by the product. */
  lemma DivDiv(x: nat, a: nat, b: nat)
    requires 0 < a && 0 < b
    ensures x / a / b == x / (a * b)
  {
    var q := x / a / b;
    var r := (x / a) % b;
    var s := x % a;
    assert x / a == q * b + r;
    assert x == (x / a) * a + s;
    calc {
      x;
    ==
      (q * b + r) * a + s;
    == { assert (q * b + r) * a == q * b * a + r * a; }
      q * b * a + r * a + s;
    == { assert q * b * a == q * (a * b); }
      q * (a * b) + (r * a + s);
    }
    assert r * a + s < a * b by {
      MulMono(r, b - 1, a);
      assert (b - 1) * a == a * b - a;
    }
    DivModOf(x, q, r * a + s, a * b);
  }
}

/** The scull command set (the SCULL_IOC* definitions of scull.h). */
module ScullCommands {
  import opened Ioc

  /** sizeof(int) and sizeof(struct task_info) on a 64-bit target. */
  const INT_SIZE: nat := 4
  const TASK_INFO_SIZE: nat := 64

  const SCULL_IOC_MAGIC: nat := 'k' as nat
  const SCULL_IOC_MAXNR: nat := 7

  const SCULL_IOCRESET: nat := Encode(IOC_NONE, SCULL_IOC_MAGIC, 0, 0)
  const SCULL_IOCSQUANTUM: nat := Encode(IOC_WRITE, SCULL_IOC_MAGIC, 1, INT_SIZE)
  const SCULL_IOCTQUANTUM: nat := Encode(IOC_NONE, SCULL_IOC_MAGIC, 2, 0)
  const SCULL_IOCGQUANTUM: nat := Encode(IOC_READ, SCULL_IOC_MAGIC, 3, INT_SIZE)
  const SCULL_IOCQQUANTUM: nat := Encode(IOC_NONE, SCULL_IOC_MAGIC, 4, 0)
  const SCULL_IOCXQUANTUM: nat := Encode(IOC_READ + IOC_WRITE, SCULL_IOC_MAGIC, 5, INT_SIZE)
  const SCULL_IOCHQUANTUM: nat := Encode(IOC_NONE, SCULL_IOC_MAGIC, 6, 0)
  const SCULL_IOCKQUANTUM: nat := Encode(IOC_READ, SCULL_IOC_MAGIC, 7, TASK_INFO_SIZE)

  /** The eight scull commands, in the order the driver's switch tests them. */
  function Commands(): (cs: seq<nat>)
    ensures |cs| == 8
    ensures forall i :: 0 <= i < |cs| ==> cs[i] < CMD_LIMIT && Type(cs[i]) == SCULL_IOC_MAGIC && Nr(cs[i]) == i
  {
    DecodeEncode(IOC_NONE, SCULL_IOC_MAGIC, 0, 0);
    DecodeEncode(IOC_WRITE, SCULL_IOC_MAGIC, 1, INT_SIZE);
    DecodeEncode(IOC_NONE, SCULL_IOC_MAGIC, 2, 0);
    DecodeEncode(IOC_READ, SCULL_IOC_MAGIC, 3, INT_SIZE);
    DecodeEncode(IOC_NONE, SCULL_IOC_MAGIC, 4, 0);
    DecodeEncode(IOC_READ + IOC_WRITE, SCULL_IOC_MAGIC, 5, INT_SIZE);
    DecodeEncode(IOC_NONE, SCULL_IOC_MAGIC, 6, 0);
    DecodeEncode(IOC_READ, SCULL_IOC_MAGIC, 7, TASK_INFO_SIZE);
    [SCULL_IOCRESET, SCULL_IOCSQUANTUM, SCULL_IOCTQUANTUM, SCULL_IOCGQUANTUM,
     SCULL_IOCQQUANTUM, SCULL_IOCXQUANTUM, SCULL_IOCHQUANTUM, SCULL_IOCKQUANTUM]
  }

  /** Every scull command passes the driver's type and number checks, and no
      two commands share a word, so the switch over them is well formed. */
  lemma CommandsWellFormed()
    ensures forall i :: 0 <= i < 8 ==> Nr(Commands()[i]) <= SCULL_IOC_MAXNR
    ensures forall i, j :: 0 <= i < j < 8 ==> Commands()[i] != Commands()[j]
  {
    var cs := Commands();
    forall i, j | 0 <= i < j < 8 ensures cs[i] != cs[j] {
      assert Nr(cs[i]) == i && Nr(cs[j]) == j;
    }
  }

  /** The fields the driver's checks read off each scull command. */
  lemma CommandLayout()
    ensures Type(SCULL_IOCRESET) == SCULL_IOC_MAGIC && Nr(SCULL_IOCRESET) == 0
      && Dir(SCULL_IOCRESET) == IOC_NONE && Size(SCULL_IOCRESET) == 0
    ensures Type(SCULL_IOCSQUANTUM) == SCULL_IOC_MAGIC && Nr(SCULL_IOCSQUANTUM) == 1
      && Dir(SCULL_IOCSQUANTUM) == IOC_WRITE && Size(SCULL_IOCSQUANTUM) == INT_SIZE
    ensures Type(SCULL_IOCTQUANTUM) == SCULL_IOC_MAGIC && Nr(SCULL_IOCTQUANTUM) == 2
      && Dir(SCULL_IOCTQUANTUM) == IOC_NONE && Size(SCULL_IOCTQUANTUM) == 0
    ensures Type(SCULL_IOCGQUANTUM) == SCULL_IOC_MAGIC && Nr(SCULL_IOCGQUANTUM) == 3
      && Dir(SCULL_IOCGQUANTUM) == IOC_READ && Size(SCULL_IOCGQUANTUM) == INT_SIZE
    ensures Type(SCULL_IOCQQUANTUM) == SCULL_IOC_MAGIC && Nr(SCULL_IOCQQUANTUM) == 4
      && Dir(SCULL_IOCQQUANTUM) == IOC_NONE && Size(SCULL_IOCQQUANTUM) == 0
    ensures Type(SCULL_IOCXQUANTUM) == SCULL_IOC_MAGIC && Nr(SCULL_IOCXQUANTUM) == 5
      && Dir(SCULL_IOCXQUANTUM) == IOC_READ + IOC_WRITE && Size(SCULL_IOCXQUANTUM) == INT_SIZE
    ensures Type(SCULL_IOCHQUANTUM) == SCULL_IOC_MAGIC && Nr(SCULL_IOCHQUANTUM) == 6
      && Dir(SCULL_IOCHQUANTUM) == IOC_NONE && Size(SCULL_IOCHQUANTUM) == 0
    ensures Type(SCULL_IOCKQUANTUM) == SCULL_IOC_MAGIC && Nr(SCULL_IOCKQUANTUM) == 7
      && Dir(SCULL_IOCKQUANTUM) == IOC_READ && Size(SCULL_IOCKQUANTUM) == TASK_INFO_SIZE
  {
    DecodeEncode(IOC_NONE, SCULL_IOC_MAGIC, 0, 0);
    DecodeEncode(IOC_WRITE, SCULL_IOC_MAGIC, 1, INT_SIZE);
    DecodeEncode(IOC_NONE, SCULL_IOC_MAGIC, 2, 0);
    DecodeEncode(IOC_READ, SCULL_IOC_MAGIC, 3, INT_SIZE);
    DecodeEncode(IOC_NONE, SCULL_IOC_MAGIC, 4, 0);
    DecodeEncode(IOC_READ + IOC_WRITE, SCULL_IOC_MAGIC, 5, INT_SIZE);
    DecodeEncode(IOC_NONE, SCULL_IOC_MAGIC, 6, 0);
    DecodeEncode(IOC_READ, SCULL_IOC_MAGIC, 7, TASK_INFO_SIZE);
  }
}
