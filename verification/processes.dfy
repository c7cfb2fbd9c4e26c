/** The operating system as the supervisor sees it through `psutil` and `subprocess`:
    a table from PID to process, and the log of signals sent so far. */
module Processes {

  /** One process: its name, whether it still exists, its parent's PID, and whether
      it survives a terminate request (a kill always ends it). */
  datatype Proc = Proc(name: string, alive: bool, ppid: int, ignoresTerm: bool)

  type Table = map<int, Proc>

  datatype Signal = Term(pid: int) | Kill(pid: int) {
    function Target(): int {
      match this
      case Term(p) => p
      case Kill(p) => p
    }
  }

  datatype Os = Os(procs: Table, signals: seq<Signal>)

  /** `psutil.pid_exists(pid)`, and `poll() is None` for a handle on `pid`. */
  predicate Alive(os: Os, pid: int) {
    pid in os.procs && os.procs[pid].alive
  }

  // ---------------------------------------------------------------------------
  // Set facts the verifier needs spelled out

  lemma EmptyWithoutMembers(a: set<int>)
    requires forall y :: y !in a
    ensures a == {}
  {
    assert forall y :: y in a <==> y in {};
  }

  lemma Member(a: set<int>) returns (x: int)
    requires a != {}
    ensures x in a
  {
    if forall y :: y !in a {
      EmptyWithoutMembers(a);
      assert false;
    }
    x :| x in a;
  }

  lemma {:induction false} SubsetCard(a: set<int>, b: set<int>)
    requires a <= b
    ensures |a| <= |b|
    decreases |b|
  {
    if a != {} {
      var x := Member(a);
      SubsetCard(a - {x}, b - {x});
    }
  }

  lemma SubsetIntro(a: set<int>, b: set<int>)
    requires forall y :: y in a ==> y in b
    ensures a <= b
  {
    assert forall y :: y in a ==> y in b;
  }

  lemma NotSubsetWitness(a: set<int>, b: set<int>) returns (p: int)
    requires !(a <= b)
    ensures p in a && p !in b
  {
    if forall y :: y in a ==> y in b {
      SubsetIntro(a, b);
    }
    p :| p in a && p !in b;
  }

  lemma ProperSubsetCard(a: set<int>, b: set<int>, p: int)
    requires a <= b && p in b && p !in a
    ensures |a| < |b|
  {
    SubsetCard(a, b - {p});
  }

  /** Each step of the closure below adds a PID of the table, so fewer remain. */
  lemma ClosureStep(t: Table, s: set<int>, c: set<int>)
    requires c <= t.Keys && !(c <= s)
    ensures |t.Keys - (s + c)| < |t.Keys - s|
  {
    var p := NotSubsetWitness(c, s);
    ProperSubsetCard(t.Keys - (s + c), t.Keys - s, p);
  }

  // ---------------------------------------------------------------------------
  // `parent.children(recursive=True)`: the live descendants of a process

  /** The live processes whose parent is in `s`. */
  function ChildrenOf(t: Table, s: set<int>): (c: set<int>)
    ensures c <= t.Keys
  {
    set p | p in t && t[p].alive && t[p].ppid in s
  }

  /** The least superset of `s` closed under ChildrenOf. */
  function Closure(t: Table, s: set<int>): set<int>
    decreases |t.Keys - s|
  {
    var c := ChildrenOf(t, s);
    if c <= s then s
    else
      ClosureStep(t, s, c);
      Closure(t, s + c)
  }

  lemma {:induction false} ClosureSound(t: Table, s: set<int>)
    ensures s <= Closure(t, s)
    ensures forall p :: p in Closure(t, s) && p !in s ==>
      p in t && t[p].alive && t[p].ppid in Closure(t, s)
    decreases |t.Keys - s|
  {
    var c := ChildrenOf(t, s);
    if !(c <= s) {
      ClosureStep(t, s, c);
      ClosureSound(t, s + c);
    }
  }

  lemma {:induction false} ClosureClosed(t: Table, s: set<int>)
    ensures ChildrenOf(t, Closure(t, s)) <= Closure(t, s)
    decreases |t.Keys - s|
  {
    var c := ChildrenOf(t, s);
    if !(c <= s) {
      ClosureStep(t, s, c);
      ClosureClosed(t, s + c);
    }
  }

  lemma {:induction false} ClosureLeast(t: Table, s: set<int>, x: set<int>)
    requires s <= x && ChildrenOf(t, x) <= x
    ensures Closure(t, s) <= x
    decreases |t.Keys - s|
  {
    var c := ChildrenOf(t, s);
    if !(c <= s) {
      ClosureStep(t, s, c);
      assert c <= ChildrenOf(t, x);
      ClosureLeast(t, s + c, x);
    }
  }

  /** The PIDs `psutil` reports as `root`'s recursive children: every live process
      whose parent is `root` or another such process, and nothing else. */
  function Descendants(t: Table, root: int): (d: set<int>)
    ensures root !in d
    ensures forall p :: p in d ==> p in t && t[p].alive && (t[p].ppid == root || t[p].ppid in d)
    ensures forall p :: p in t && p != root && t[p].alive && (t[p].ppid == root || t[p].ppid in d) ==> p in d
  {
    ClosureSound(t, {root});
    ClosureClosed(t, {root});
    var c := Closure(t, {root});
    assert forall p :: p in t && t[p].alive && t[p].ppid in c ==> p in c by {
      forall p | p in t && t[p].alive && t[p].ppid in c ensures p in c {
        assert p in ChildrenOf(t, c);
      }
    }
    c - {root}
  }

  /** Nothing outside the tree is reported: any set that holds root's live children
      and is closed under taking live children holds every descendant. */
  lemma DescendantsLeast(t: Table, root: int, x: set<int>)
    requires forall p :: p in t && p != root && t[p].alive && (t[p].ppid == root || t[p].ppid in x) ==> p in x
    ensures Descendants(t, root) <= x
  {
    var y := x + {root};
    assert ChildrenOf(t, y) <= y by {
      forall p | p in ChildrenOf(t, y) ensures p in y {
        if p != root { assert p in x; }
      }
    }
    ClosureLeast(t, {root}, y);
  }

  // ---------------------------------------------------------------------------
  // A fixed enumeration order for a set of PIDs

  /** The least member of a non-empty set, found by removing members one at a time. */
  lemma {:induction false} LeastMember(s: set<int>) returns (m: int)
    requires s != {}
    ensures m in s && forall x :: x in s ==> m <= x
    decreases |s|
  {
    var y := Member(s);
    var r := s - {y};
    if r == {} {
      m := y;
      forall x | x in s ensures m <= x { assert x !in r; }
    } else {
      ProperSubsetCard(r, s, y);
      var least := LeastMember(r);
      m := if y < least then y else least;
      forall x | x in s ensures m <= x { if x != y { assert x in r; } }
    }
  }

  lemma MinExists(s: set<int>)
    requires s != {}
    ensures exists m :: m in s && forall x :: x in s ==> m <= x
  {
    var m := LeastMember(s);
  }

  function Min(s: set<int>): (m: int)
    requires s != {}
    ensures m in s && forall x :: x in s ==> m <= x
  {
    MinExists(s);
    var m :| m in s && forall x :: x in s ==> m <= x;
    m
  }

  /** The members of `s` in ascending order, each once. */
  function Listing(s: set<int>): (r: seq<int>)
    ensures forall x :: x in r <==> x in s
    ensures forall i, j :: 0 <= i < j < |r| ==> r[i] < r[j]
    decreases |s|
  {
    if s == {} then
      assert forall x :: x !in s;
      []
    else
      var m := Min(s);
      assert |s - {m}| < |s| by { ProperSubsetCard(s - {m}, s, m); }
      [m] + Listing(s - {m})
  }

  // ---------------------------------------------------------------------------
  // Signals

  /** What a terminate request does to a process. */
  function Terminated(p: Proc): Proc {
    p.(alive := p.alive && p.ignoresTerm)
  }

  /** `p.terminate()`: a live process is asked to end and the request is logged; a
      process that no longer exists raises NoSuchProcess, which the caller swallows,
      so nothing happens. */
  function SendTerm(os: Os, pid: int): (r: Os)
    ensures forall q :: q in r.procs <==> q in os.procs
    ensures forall q :: q in os.procs ==> r.procs[q] == if q == pid then Terminated(os.procs[q]) else os.procs[q]
    ensures r.signals == if Alive(os, pid) then os.signals + [Term(pid)] else os.signals
  {
    if Alive(os, pid) then Os(os.procs[pid := Terminated(os.procs[pid])], os.signals + [Term(pid)])
    else os
  }

  /** `p.kill()`: ends a live process; a vanished one is skipped. */
  function SendKill(os: Os, pid: int): (r: Os)
    ensures forall q :: q in r.procs <==> q in os.procs
    ensures forall q :: q in os.procs ==> r.procs[q] == if q == pid then os.procs[q].(alive := false) else os.procs[q]
    ensures r.signals == if Alive(os, pid) then os.signals + [Kill(pid)] else os.signals
  {
    if Alive(os, pid) then Os(os.procs[pid := os.procs[pid].(alive := false)], os.signals + [Kill(pid)])
    else os
  }

  /** `for child in children: child.terminate()`, each failure swallowed. */
  function SendTermEach(os: Os, ps: seq<int>): (r: Os)
    ensures forall q :: q in r.procs <==> q in os.procs
    ensures forall q :: q in os.procs ==> r.procs[q] == if q in ps then Terminated(os.procs[q]) else os.procs[q]
    decreases |ps|
  {
    if ps == [] then os
    else
      var init := ps[..|ps| - 1];
      assert forall q :: q in ps <==> q in init || q == ps[|ps| - 1];
      SendTerm(SendTermEach(os, init), ps[|ps| - 1])
  }

  /** `for p in still_alive: p.kill()`, each failure swallowed. */
  function SendKillEach(os: Os, ps: seq<int>): (r: Os)
    ensures forall q :: q in r.procs <==> q in os.procs
    ensures forall q :: q in os.procs ==> r.procs[q] == if q in ps then os.procs[q].(alive := false) else os.procs[q]
    decreases |ps|
  {
    if ps == [] then os
    else
      var init := ps[..|ps| - 1];
      assert forall q :: q in ps <==> q in init || q == ps[|ps| - 1];
      SendKill(SendKillEach(os, init), ps[|ps| - 1])
  }

  /** The `still_alive` list of `psutil.wait_procs(ps, timeout=3)`: the members of
      `ps` that have not exited. psutil does not promise an order; the model keeps
      the order of `ps`. */
  function StillAlive(os: Os, ps: seq<int>): (r: seq<int>)
    ensures forall q :: q in r <==> q in ps && Alive(os, q)
    decreases |ps|
  {
    if ps == [] then []
    else
      var init := ps[..|ps| - 1];
      var last := ps[|ps| - 1];
      assert forall q :: q in ps <==> q in init || q == last;
      StillAlive(os, init) + if Alive(os, last) then [last] else []
  }

  function Terms(ps: seq<int>): (r: seq<Signal>)
    decreases |ps|
  {
    if ps == [] then [] else Terms(ps[..|ps| - 1]) + [Term(ps[|ps| - 1])]
  }

  function Kills(ps: seq<int>): (r: seq<Signal>)
    decreases |ps|
  {
    if ps == [] then [] else Kills(ps[..|ps| - 1]) + [Kill(ps[|ps| - 1])]
  }

  predicate Distinct(ps: seq<int>) {
    forall i, j :: 0 <= i < j < |ps| ==> ps[i] != ps[j]
  }

  /** Dropping the last element of a list of distinct PIDs keeps them distinct, and
      the dropped one is not among the rest. */
  lemma DistinctInit(ps: seq<int>)
    requires Distinct(ps) && ps != []
    ensures Distinct(ps[..|ps| - 1])
    ensures ps[|ps| - 1] !in ps[..|ps| - 1]
    ensures forall q :: q in ps[..|ps| - 1] ==> q in ps
  {
    var init := ps[..|ps| - 1];
    forall i | 0 <= i < |init| ensures init[i] != ps[|ps| - 1] { assert init[i] == ps[i]; }
  }

  /** Terminating distinct live processes one after another logs one terminate
      request per process, in order. */
  lemma {:induction false} SendTermEachLog(os: Os, ps: seq<int>)
    requires Distinct(ps)
    requires forall q :: q in ps ==> Alive(os, q)
    ensures SendTermEach(os, ps).signals == os.signals + Terms(ps)
    decreases |ps|
  {
    if ps != [] {
      var init := ps[..|ps| - 1];
      var last := ps[|ps| - 1];
      DistinctInit(ps);
      SendTermEachLog(os, init);
      assert Alive(os, last);
      var r := SendTermEach(os, init);
      assert r.procs[last] == os.procs[last];
    }
  }

  lemma {:induction false} SendKillEachLog(os: Os, ps: seq<int>)
    requires Distinct(ps)
    requires forall q :: q in ps ==> Alive(os, q)
    ensures SendKillEach(os, ps).signals == os.signals + Kills(ps)
    decreases |ps|
  {
    if ps != [] {
      var init := ps[..|ps| - 1];
      var last := ps[|ps| - 1];
      DistinctInit(ps);
      SendKillEachLog(os, init);
      assert Alive(os, last);
      var r := SendKillEach(os, init);
      assert r.procs[last] == os.procs[last];
    }
  }

  lemma {:induction false} StillAliveDistinct(os: Os, ps: seq<int>)
    requires Distinct(ps)
    ensures Distinct(StillAlive(os, ps))
    decreases |ps|
  {
    if ps != [] {
      var init := ps[..|ps| - 1];
      var last := ps[|ps| - 1];
      StillAliveDistinct(os, init);
      assert last !in init by {
        forall i | 0 <= i < |init| ensures init[i] != last { assert init[i] == ps[i]; }
      }
      assert last !in StillAlive(os, init);
    }
  }

  // ---------------------------------------------------------------------------
  // The shutdown of a process tree performed by `stop_upload`

  /** The children snapshot, taken before anything is signalled. */
  function Snapshot(os: Os, h: int): seq<int> {
    Listing(Descendants(os.procs, h))
  }

  /** The state after every child and then the parent were asked to terminate. */
  function Signalled(os: Os, h: int): Os {
    SendTerm(SendTermEach(os, Snapshot(os, h)), h)
  }

  /** The `still_alive` list of the wait over `[parent] + children`. */
  function Survivors(os: Os, h: int): seq<int> {
    StillAlive(Signalled(os, h), [h] + Snapshot(os, h))
  }

  /** Terminate every child, then the parent; whatever of the parent and the
      snapshot is still alive after the wait is killed. */
  function TreeShutdown(os: Os, h: int): Os {
    SendKillEach(Signalled(os, h), Survivors(os, h))
  }

  /** Exactly the members of the tree that ignore a terminate request are killed. */
  lemma SurvivorsIgnoredTerm(os: Os, h: int, q: int)
    requires Alive(os, h)
    ensures q in Survivors(os, h) <==> (q == h || q in Snapshot(os, h)) && os.procs[q].ignoresTerm
  {
    var kids := Snapshot(os, h);
    assert q in [h] + kids <==> q == h || q in kids;
  }

  lemma SnapshotFacts(os: Os, h: int)
    ensures Distinct([h] + Snapshot(os, h))
    ensures forall q :: q in Snapshot(os, h) ==> Alive(os, q)
  {
    var kids := Snapshot(os, h);
    var group := [h] + kids;
    forall i, j | 0 <= i < j < |group| ensures group[i] != group[j] {
      if i == 0 {
        assert group[j] in kids;
      } else {
        assert group[i] == kids[i - 1] && group[j] == kids[j - 1];
      }
    }
  }

  /** The terminate requests of a shutdown: every child of the snapshot, then the parent. */
  lemma SignalledLog(os: Os, h: int)
    requires Alive(os, h)
    ensures Signalled(os, h).signals == os.signals + Terms(Snapshot(os, h)) + [Term(h)]
  {
    var kids := Snapshot(os, h);
    SnapshotFacts(os, h);
    DistinctTail(h, kids);
    SendTermEachLog(os, kids);
    var afterKids := SendTermEach(os, kids);
    assert afterKids.procs[h] == os.procs[h];
  }

  lemma DistinctTail(h: int, ps: seq<int>)
    requires Distinct([h] + ps)
    ensures Distinct(ps) && h !in ps
  {
    forall i, j | 0 <= i < j < |ps| ensures ps[i] != ps[j] {
      assert ([h] + ps)[i + 1] == ps[i] && ([h] + ps)[j + 1] == ps[j];
    }
    forall i | 0 <= i < |ps| ensures ps[i] != h {
      assert ([h] + ps)[0] == h && ([h] + ps)[i + 1] == ps[i];
    }
  }

  /** The signals of a shutdown, in order: one terminate per child, then one to the
      parent, then one kill per survivor of the wait. */
  lemma ShutdownLog(os: Os, h: int)
    requires Alive(os, h)
    ensures TreeShutdown(os, h).signals
      == os.signals + Terms(Snapshot(os, h)) + [Term(h)] + Kills(Survivors(os, h))
  {
    SignalledLog(os, h);
    SnapshotFacts(os, h);
    StillAliveDistinct(Signalled(os, h), [h] + Snapshot(os, h));
    SendKillEachLog(Signalled(os, h), Survivors(os, h));
  }

  /** After a shutdown no member of the tree is alive. */
  lemma ShutdownEndsTree(os: Os, h: int, q: int)
    requires q == h || q in Descendants(os.procs, h)
    ensures !Alive(TreeShutdown(os, h), q)
  {
    var kids := Snapshot(os, h);
    assert q in [h] + kids;
  }

  /** Every signal of a shutdown goes to the parent or to a member of the snapshot. */
  lemma ShutdownTargetsTree(os: Os, h: int)
    requires Alive(os, h)
    ensures forall i :: |os.signals| <= i < |TreeShutdown(os, h).signals| ==>
      var target := TreeShutdown(os, h).signals[i].Target();
      target == h || target in Snapshot(os, h)
  {
    var kids := Snapshot(os, h);
    var survivors := Survivors(os, h);
    ShutdownLog(os, h);
    assert forall q :: q in survivors ==> q in [h] + kids;
    LogTargets(os.signals, kids, h, survivors);
  }

  /** The targets of a log of the shutdown's shape, past its first `|before|` entries. */
  lemma LogTargets(before: seq<Signal>, kids: seq<int>, h: int, survivors: seq<int>)
    requires forall q :: q in survivors ==> q in [h] + kids
    ensures var log := before + Terms(kids) + [Term(h)] + Kills(survivors);
      forall i :: |before| <= i < |log| ==> log[i].Target() == h || log[i].Target() in kids
  {
    TermsTargets(kids);
    KillsTargets(survivors);
    var log := before + Terms(kids) + [Term(h)] + Kills(survivors);
    forall i | |before| <= i < |log| ensures log[i].Target() == h || log[i].Target() in kids {
      var k := i - |before|;
      if k < |kids| {
        assert log[i] == Terms(kids)[k];
      } else if k == |kids| {
        assert log[i] == Term(h);
      } else {
        var m := k - |kids| - 1;
        assert log[i] == Kills(survivors)[m];
        assert survivors[m] in survivors;
        assert survivors[m] in [h] + kids;
      }
    }
  }

  /** A shutdown never touches a process outside the tree: its entry is unchanged
      and no signal is addressed to it. */
  lemma ShutdownSparesOthers(os: Os, h: int, q: int)
    requires Alive(os, h)
    requires q != h && q !in Descendants(os.procs, h)
    ensures (q in TreeShutdown(os, h).procs <==> q in os.procs)
    ensures q in os.procs ==> TreeShutdown(os, h).procs[q] == os.procs[q]
    ensures forall i :: |os.signals| <= i < |TreeShutdown(os, h).signals| ==> TreeShutdown(os, h).signals[i].Target() != q
  {
    ShutdownTargetsTree(os, h);
    assert q !in Survivors(os, h);
  }

  lemma {:induction false} TermsTargets(ps: seq<int>)
    ensures |Terms(ps)| == |ps|
    ensures forall i :: 0 <= i < |ps| ==> Terms(ps)[i] == Term(ps[i])
    decreases |ps|
  {
    if ps != [] { TermsTargets(ps[..|ps| - 1]); }
  }

  lemma {:induction false} KillsTargets(ps: seq<int>)
    ensures |Kills(ps)| == |ps|
    ensures forall i :: 0 <= i < |ps| ==> Kills(ps)[i] == Kill(ps[i])
    decreases |ps|
  {
    if ps != [] { KillsTargets(ps[..|ps| - 1]); }
  }

  // ---------------------------------------------------------------------------
  // What the rest of the system does to the table

  /** A process appears under `pid` (a launch by the supervisor or a fork by the worker);
      the callers hand it only a PID that no live process holds. Every other entry of
      the table is kept as it was. */
  function Spawn(os: Os, pid: int, p: Proc): (r: Os)
    requires !Alive(os, pid)
    ensures pid in r.procs && r.procs[pid] == p
    ensures Alive(r, pid) == p.alive
    ensures r.signals == os.signals
    ensures forall q :: q != pid ==>
      && (q in r.procs <==> q in os.procs)
      && (q in os.procs ==> r.procs[q] == os.procs[q])
  {
    os.(procs := os.procs[pid := p])
  }

  /** The process `pid` exits on its own or is killed by someone else. */
  function Exit(os: Os, pid: int): (r: Os)
    ensures !Alive(r, pid)
    ensures r.signals == os.signals
    ensures forall q :: q != pid ==> Alive(r, q) == Alive(os, q)
  {
    if pid in os.procs then os.(procs := os.procs[pid := os.procs[pid].(alive := false)]) else os
  }
}
