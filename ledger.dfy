/** The registration ledger as a value: the (pid, tgid) pairs of the linked
    list, head first, and what draining it at module unload logs and frees. */
module Ledger {
  import opened Machine

  datatype Entry = Entry(pid: int32, tgid: int32)

  /** The ledger's invariant: no pair is recorded twice. */
  ghost predicate NoDup(l: seq<Entry>)
  {
    forall i, j :: 0 <= i < j < |l| ==> l[i] != l[j]
  }

  /** The registration step: the pair is appended at the tail unless the
      head-to-tail scan finds it. */
  function AppendIfAbsent(l: seq<Entry>, e: Entry): (r: seq<Entry>)
    ensures e in r
    ensures forall x :: x in r <==> x in l || x == e
    ensures r == l <==> e in l
    ensures e !in l ==> r == l + [e]
    ensures NoDup(l) ==> NoDup(r)
  {
    if e in l then l else l + [e]
  }

  /** Registering the same pair twice leaves exactly what registering it once does. */
  lemma AppendIfAbsentIdempotent(l: seq<Entry>, e: Entry)
    ensures AppendIfAbsent(AppendIfAbsent(l, e), e) == AppendIfAbsent(l, e)
  {
  }

  /** In a duplicate-free ledger a registered pair occurs exactly once. */
  lemma RegisteredOnce(l: seq<Entry>, e: Entry)
    requires NoDup(l)
    ensures multiset(AppendIfAbsent(l, e))[e] == 1
  {
    var r := AppendIfAbsent(l, e);
    var i :| 0 <= i < |r| && r[i] == e;
    OccursOnce(r, i);
  }

  lemma {:induction false} OccursOnce(l: seq<Entry>, i: nat)
    requires NoDup(l) && i < |l|
    ensures multiset(l)[l[i]] == 1
  {
    var last := |l| - 1;
    assert l == l[..last] + [l[last]];
    if i == last {
      assert l[i] !in l[..last];
    } else {
      OccursOnce(l[..last], i);
    }
  }

  /** Registrations landing one after another, in the order the lock admits them. */
  function RegisterAll(l: seq<Entry>, es: seq<Entry>): (r: seq<Entry>)
    ensures NoDup(l) ==> NoDup(r)
    ensures l <= r
    ensures forall x :: x in r <==> x in l || x in es
    decreases |es|
  {
    if |es| == 0 then l else RegisterAll(AppendIfAbsent(l, es[0]), es[1..])
  }

  /** Each pair of es is new to l and differs from the pairs before it in es. */
  predicate Fresh(l: seq<Entry>, es: seq<Entry>)
  {
    forall i :: 0 <= i < |es| ==> es[i] !in l && es[i] !in es[..i]
  }

  /** N registrations of pairwise distinct, new pairs add exactly N entries,
      in the order they landed. */
  lemma {:induction false} RegisterAllFresh(l: seq<Entry>, es: seq<Entry>)
    requires Fresh(l, es)
    ensures RegisterAll(l, es) == l + es
    ensures |RegisterAll(l, es)| == |l| + |es|
    decreases |es|
  {
    if |es| != 0 {
      FreshHead(l, es);
      FreshTail(l, es);
      RegisterAllFresh(l + [es[0]], es[1..]);
      ConsConcat(l, es);
    }
  }

  lemma FreshHead(l: seq<Entry>, es: seq<Entry>)
    requires |es| > 0 && Fresh(l, es)
    ensures RegisterAll(l, es) == RegisterAll(l + [es[0]], es[1..])
  {
    assert es[0] !in l;
  }

  lemma ConsConcat(l: seq<Entry>, es: seq<Entry>)
    requires |es| > 0
    ensures (l + [es[0]]) + es[1..] == l + es
  {
    assert es == [es[0]] + es[1..];
  }

  /** After the first of distinct new pairs lands, the rest are still distinct and new. */
  lemma FreshTail(l: seq<Entry>, es: seq<Entry>)
    requires |es| > 0 && Fresh(l, es)
    ensures Fresh(l + [es[0]], es[1..])
  {
    var l', es' := l + [es[0]], es[1..];
    forall i | 0 <= i < |es'| ensures es'[i] !in l' && es'[i] !in es'[..i] {
      assert es'[i] == es[i + 1];
      assert es[..i + 1] == [es[0]] + es'[..i];
      assert es[i + 1] !in es[..i + 1];
    }
  }

  /** Whatever order concurrent registrations land in, the ledger ends up
      holding the same pairs, each once, and so has the same length. */
  lemma RegisterAllOrderIndependent(l: seq<Entry>, es: seq<Entry>, es': seq<Entry>)
    requires NoDup(l)
    requires multiset(es) == multiset(es')
    ensures forall x :: x in RegisterAll(l, es) <==> x in RegisterAll(l, es')
    ensures |RegisterAll(l, es)| == |RegisterAll(l, es')|
  {
    var r, r' := RegisterAll(l, es), RegisterAll(l, es');
    forall x ensures x in es <==> x in es' {
      assert x in es <==> x in multiset(es);
      assert x in es' <==> x in multiset(es');
    }
    assert Elements(r) == Elements(r');
    NoDupCard(r);
    NoDupCard(r');
  }

  ghost function Elements(l: seq<Entry>): set<Entry> { set x | x in l }

  lemma {:induction false} NoDupCard(l: seq<Entry>)
    requires NoDup(l)
    ensures |Elements(l)| == |l|
  {
    if l != [] {
      var last := |l| - 1;
      assert l == l[..last] + [l[last]];
      assert Elements(l) == Elements(l[..last]) + {l[last]};
      assert l[last] !in Elements(l[..last]);
      NoDupCard(l[..last]);
    }
  }

  // ---------------------------------------------------------------------
  // Draining the ledger at module unload

  /** What the drain logs: the empty-list notice, the banner, and one line
      per task, numbered from 1, with an arrow after all but the last. */
  datatype Line = EmptyList | Banner | TaskLine(num: nat, pid: int32, tgid: int32, arrow: bool)

  /** What the drain frees: node i of the list (i counted from the head),
      or the list header itself. */
  datatype Block = NodeBlock(index: nat) | ListBlock

  datatype Event = Log(line: Line) | Release(block: Block)

  /** The events of a non-empty drain after the banner and n turns of the
      loop: each of the first n nodes is printed with an arrow, then freed. */
  function Walked(l: seq<Entry>, n: nat): (t: seq<Event>)
    requires n <= |l|
    ensures |t| == 2 * n + 1
  {
    if n == 0 then [Log(Banner)]
    else Walked(l, n - 1) + [Log(TaskLine(n, l[n - 1].pid, l[n - 1].tgid, true)), Release(NodeBlock(n - 1))]
  }

  /** What the non-empty branch of the drain logs and frees before the
      header: the banner, every node but the last printed with an arrow and
      freed, then the last node printed without an arrow and freed. */
  function FreedList(l: seq<Entry>): (t: seq<Event>)
    requires |l| > 0
    ensures |t| == 2 * |l| + 1
  {
    var k := |l| - 1;
    Walked(l, k) + [Log(TaskLine(k + 1, l[k].pid, l[k].tgid, false)), Release(NodeBlock(k))]
  }

  /** The drain as it ought to run: every node freed once, then the header. */
  function DrainTrace(l: seq<Entry>): seq<Event>
  {
    if |l| == 0 then [Log(EmptyList), Release(ListBlock)]
    else FreedList(l) + [Release(ListBlock)]
  }

  /** The drain as the source runs it: after the last node is freed through
      `head`, `tail` (the same node) is freed again. */
  function DrainTraceAsWritten(l: seq<Entry>): seq<Event>
  {
    if |l| == 0 then [Log(EmptyList), Release(ListBlock)]
    else FreedList(l) + [Release(NodeBlock(|l| - 1)), Release(ListBlock)]
  }

  /** How many times a trace releases block b: the multiplicity of b in the
      multiset of freed blocks. */
  function Releases(t: seq<Event>, b: Block): nat
  {
    if |t| == 0 then 0 else Releases(t[..|t| - 1], b) + (if t[|t| - 1] == Release(b) then 1 else 0)
  }

  lemma ReleasesSnoc(t: seq<Event>, e: Event, b: Block)
    ensures Releases(t + [e], b) == Releases(t, b) + (if e == Release(b) then 1 else 0)
  {
    assert (t + [e])[..|t|] == t;
  }

  /** What the first n turns of the loop free: each of the first n nodes once. */
  function FreedByLoop(n: nat, b: Block): nat
  {
    if b.NodeBlock? && b.index < n then 1 else 0
  }

  lemma {:induction false} WalkedReleases(l: seq<Entry>, n: nat, b: Block)
    requires n <= |l|
    ensures Releases(Walked(l, n), b) == FreedByLoop(n, b)
  {
    if n == 0 {
      assert Walked(l, 0) == [] + [Log(Banner)];
      ReleasesSnoc([], Log(Banner), b);
    } else {
      WalkedReleases(l, n - 1, b);
      var w := Walked(l, n - 1);
      var x, y := Log(TaskLine(n, l[n - 1].pid, l[n - 1].tgid, true)), Release(NodeBlock(n - 1));
      assert Walked(l, n) == (w + [x]) + [y];
      ReleasesSnoc(w, x, b);
      ReleasesSnoc(w + [x], y, b);
    }
  }

  /** Turn i of the loop prints node i at event 2i + 1 and frees it at event 2i + 2. */
  lemma {:induction false} WalkedAt(l: seq<Entry>, n: nat, i: nat)
    requires i < n <= |l|
    ensures Walked(l, n)[0] == Log(Banner)
    ensures Walked(l, n)[2 * i + 1] == Log(TaskLine(i + 1, l[i].pid, l[i].tgid, true))
    ensures Walked(l, n)[2 * i + 2] == Release(NodeBlock(i))
  {
    if i < n - 1 {
      WalkedAt(l, n - 1, i);
    } else if n > 1 {
      WalkedAt(l, n - 1, 0);
    }
  }

  /** An empty ledger: the drain only reports that the list is empty and
      frees the header, as written and as intended alike. */
  lemma DrainEmpty()
    ensures DrainTrace([]) == DrainTraceAsWritten([]) == [Log(EmptyList), Release(ListBlock)]
  {
  }

  /** The drain visits the ledger head to tail: the banner, then for node i
      (from 0) its line numbered i + 1, which carries an arrow exactly when
      the node is not the last, immediately followed by its release; the
      header is freed last. */
  lemma DrainOrder(l: seq<Entry>)
    requires |l| > 0
    ensures |DrainTrace(l)| == 2 * |l| + 2
    ensures DrainTrace(l)[0] == Log(Banner)
    ensures forall i :: 0 <= i < |l| ==>
      DrainTrace(l)[2 * i + 1] == Log(TaskLine(i + 1, l[i].pid, l[i].tgid, i < |l| - 1))
      && DrainTrace(l)[2 * i + 2] == Release(NodeBlock(i))
    ensures DrainTrace(l)[2 * |l| + 1] == Release(ListBlock)
  {
    var k := |l| - 1;
    var w := Walked(l, k);
    var t := DrainTrace(l);
    assert t == w + [Log(TaskLine(k + 1, l[k].pid, l[k].tgid, false)), Release(NodeBlock(k)), Release(ListBlock)];
    if k > 0 {
      WalkedAt(l, k, 0);
    }
    forall i | 0 <= i < |l|
      ensures t[2 * i + 1] == Log(TaskLine(i + 1, l[i].pid, l[i].tgid, i < |l| - 1))
      ensures t[2 * i + 2] == Release(NodeBlock(i))
    {
      if i < k {
        WalkedAt(l, k, i);
        assert t[2 * i + 1] == w[2 * i + 1] && t[2 * i + 2] == w[2 * i + 2];
      }
    }
  }

  /** The intended drain frees every node of the ledger exactly once, and the
      header once: no leak and no double release, including when head == tail. */
  lemma DrainReleasesEachOnce(l: seq<Entry>, b: Block)
    ensures Releases(DrainTrace(l), b) == if b == ListBlock || b.index < |l| then 1 else 0
  {
    if |l| == 0 {
      assert DrainTrace(l) == ([] + [Log(EmptyList)]) + [Release(ListBlock)];
      ReleasesSnoc([], Log(EmptyList), b);
      ReleasesSnoc([Log(EmptyList)], Release(ListBlock), b);
    } else {
      var k := |l| - 1;
      var w := Walked(l, k);
      var x := Log(TaskLine(k + 1, l[k].pid, l[k].tgid, false));
      assert DrainTrace(l) == ((w + [x]) + [Release(NodeBlock(k))]) + [Release(ListBlock)];
      WalkedReleases(l, k, b);
      ReleasesSnoc(w, x, b);
      ReleasesSnoc(w + [x], Release(NodeBlock(k)), b);
      ReleasesSnoc((w + [x]) + [Release(NodeBlock(k))], Release(ListBlock), b);
    }
  }

  /** The drain as written frees the last node twice, for every non-empty
      ledger: `head` and `tail` both point at it when the loop stops. */
  lemma AsWrittenReleasesLastTwice(l: seq<Entry>)
    requires |l| > 0
    ensures Releases(DrainTraceAsWritten(l), NodeBlock(|l| - 1)) == 2
  {
    var k := |l| - 1;
    var b := NodeBlock(k);
    var w := Walked(l, k);
    var x := Log(TaskLine(k + 1, l[k].pid, l[k].tgid, false));
    var w2 := (w + [x]) + [Release(b)];
    assert DrainTraceAsWritten(l) == (w2 + [Release(b)]) + [Release(ListBlock)];
    WalkedReleases(l, k, b);
    ReleasesSnoc(w, x, b);
    ReleasesSnoc(w + [x], Release(b), b);
    ReleasesSnoc(w2, Release(b), b);
    ReleasesSnoc(w2 + [Release(b)], Release(ListBlock), b);
  }

  /** The drain as written walks the ledger exactly as the intended drain
      does (so the visiting order, numbering and arrows of DrainOrder hold
      for it), and only then frees the last node a second time, before the
      header. */
  lemma AsWrittenOrder(l: seq<Entry>)
    requires |l| > 0
    ensures |DrainTraceAsWritten(l)| == 2 * |l| + 3
    ensures DrainTraceAsWritten(l)[..2 * |l| + 1] == DrainTrace(l)[..2 * |l| + 1] == FreedList(l)
    ensures DrainTraceAsWritten(l)[2 * |l| + 1] == Release(NodeBlock(|l| - 1))
    ensures DrainTraceAsWritten(l)[2 * |l| + 2] == Release(ListBlock)
  {
    var f := FreedList(l);
    assert DrainTraceAsWritten(l)[..|f|] == f;
    assert DrainTrace(l)[..|f|] == f;
  }
}
