/** One step of the walk over a child list, and the measure that lets it end although the
    list grows and new nodes are pushed. */
module LinkerSteps {
  import opened Citations
  import opened WordTree
  import opened Linker

  function Size(t: Tree): nat
    decreases t, 0
  {
    1 + SizeAll(t.children)
  }

  function SizeAll(ts: seq<Tree>): nat
    decreases ts, 1
  {
    if ts == [] then 0 else Size(ts[0]) + SizeAll(ts[1..])
  }

  /** What is still to be visited after a run has been replaced: the new nodes behind the
      first one, then the rest. */
  function AfterRun(rest: seq<Tree>, avail: set<nat>): seq<Tree>
    requires rest != [] && rest[0].tag == Run
  {
    SplitRunHead(rest[0], avail);
    SplitRun(rest[0], avail)[1..] + rest[1..]
  }

  lemma {:induction false} RunStep(rest: seq<Tree>, avail: set<nat>)
    requires rest != [] && rest[0].tag == Run
    ensures SplitRun(rest[0], avail) != [] && SplitRun(rest[0], avail)[0].tag == Run
    ensures LinkAll(rest, avail) == [SplitRun(rest[0], avail)[0]] + LinkAll(AfterRun(rest, avail), avail)
    ensures CountAll(rest, Available(avail)) ==
              |RunTokens(rest[0], Available(avail))| + CountAll(AfterRun(rest, avail), Available(avail))
    ensures SplitRun(rest[0], avail) != [rest[0]] ==> RunTokens(rest[0], Available(avail)) != []
    ensures SplitRun(rest[0], avail) == [rest[0]] ==> AfterRun(rest, avail) == rest[1..]
  {
    hide SplitRun, RunTokens, LinkTree, Available;
    var ns := SplitRun(rest[0], avail);
    SplitRunHead(rest[0], avail);
    SplitRunInert(rest[0], avail);
    InertTail(ns, avail);
    LinkAllJoin(ns[1..], rest[1..], avail);
    assert ns == [ns[0]] + ns[1..];
    assert LinkAll(rest, avail) == ns + LinkAll(rest[1..], avail);
    NotSplit(rest[0], avail);
    assert [rest[0]][1..] == [] && [] + rest[1..] == rest[1..];
  }

  lemma {:induction false} NotSplit(run: Tree, avail: set<nat>)
    ensures SplitRun(run, avail) != [run] ==> RunTokens(run, Available(avail)) != []
  {
  }

  lemma {:induction false} InertTail(ns: seq<Tree>, avail: set<nat>)
    requires ns != [] && InertAll(ns, avail)
    ensures LinkAll(ns[1..], avail) == ns[1..] && CountAll(ns[1..], Available(avail)) == 0
  {
    InertFixed(ns[1..], avail);
  }

  lemma {:induction false} TreeStep(rest: seq<Tree>, avail: set<nat>)
    requires rest != [] && rest[0].tag != Run
    ensures LinkAll(rest, avail) == [LinkTree(rest[0], avail)] + LinkAll(rest[1..], avail)
    ensures CountAll(rest, Available(avail)) == Count(rest[0], Available(avail)) + CountAll(rest[1..], Available(avail))
    ensures SizeAll(LinkAll(rest, avail)) == Size(LinkTree(rest[0], avail)) + SizeAll(LinkAll(rest[1..], avail))
  {
    hide LinkTree, Count, Available, Size;
    SizeCons(LinkTree(rest[0], avail), LinkAll(rest[1..], avail));
  }

  lemma {:induction false} SizeCons(t: Tree, ts: seq<Tree>)
    ensures SizeAll([t] + ts) == Size(t) + SizeAll(ts)
  {
    assert ([t] + ts)[1..] == ts;
  }

  // ----- The stack

  /** The linked sizes of the trees on the stack. */
  function Pending(ts: seq<Tree>, avail: set<nat>): nat {
    if ts == [] then 0 else Pending(ts[..|ts| - 1], avail) + Size(LinkTree(ts[|ts| - 1], avail))
  }

  /** The linkable citations below the trees on the stack. */
  function PendingLinks(ts: seq<Tree>, want: Want): nat {
    if ts == [] then 0 else PendingLinks(ts[..|ts| - 1], want) + Count(ts[|ts| - 1], want)
  }

  lemma {:induction false} PendingSnoc(ts: seq<Tree>, t: Tree, avail: set<nat>)
    ensures Pending(ts + [t], avail) == Pending(ts, avail) + Size(LinkTree(t, avail))
    ensures PendingLinks(ts + [t], Available(avail)) == PendingLinks(ts, Available(avail)) + Count(t, Available(avail))
  {
    hide LinkTree, Count, Available, Size;
    assert (ts + [t])[..|ts|] == ts;
  }

  lemma {:induction false} PendingJoin(a: seq<Tree>, b: seq<Tree>, avail: set<nat>)
    ensures Pending(a + b, avail) == Pending(a, avail) + Pending(b, avail)
    ensures PendingLinks(a + b, Available(avail)) == PendingLinks(a, Available(avail)) + PendingLinks(b, Available(avail))
    decreases |b|
  {
    hide LinkTree, Count, Available, Size;
    if b == [] {
      assert a + b == a;
    } else {
      PendingJoin(a, b[..|b| - 1], avail);
      assert (a + b)[..|a + b| - 1] == a + b[..|b| - 1];
    }
  }
}
