/** The user stacks of a process's threads and its list of reusable ones (ualloc and ufree in vm.c,
    and the system calls that use them). A stack is named by its top address: its bytes are those of
    the page's length below it, and its guard is the page that holds the byte two pages below it. */
module UserStacks {

  const PGSIZE: nat := 4096
  const STACK: nat := 2 * PGSIZE

  const NOBODY: int := -1

  /** A thread slot: the process it belongs to, NOBODY if none, and its stack. */
  datatype Thread = Thread(mp: int, usp: nat)

  /** A process slot: its size and its list of free stacks, most recent first. */
  datatype Proc = Proc(used: bool, sz: nat, fslist: seq<nat>)

  /** Two stacks whose tops are two pages apart. */
  predicate Far(x: nat, y: nat) { x + STACK <= y || y + STACK <= x }

  /** A stack inside the process's memory. */
  predicate Inside(x: nat, sz: nat) { STACK <= x <= sz }

  // ---- the pages of a stack ------------------------------------------------------------------

  /** The page that clearpteu takes from the user, and the page of the stack's last byte. */
  function GuardPage(x: nat): nat
    requires STACK <= x
  {
    (x - STACK) / PGSIZE
  }

  function LastPage(x: nat): nat
    requires STACK <= x
  {
    (x - 1) / PGSIZE
  }

  predicate Covers(x: nat, page: nat)
    requires STACK <= x
  {
    GuardPage(x) <= page <= LastPage(x)
  }

  /** The byte at `a` is on a page of the stack or on its guard. */
  predicate OnPages(x: nat, a: nat)
    requires STACK <= x
  {
    Covers(x, a / PGSIZE)
  }

  /** The pages of the stack and its guard hold nothing else. */
  ghost predicate Alone(x: nat)
    requires STACK <= x
  {
    forall a: nat :: OnPages(x, a) ==> x - STACK <= a < x
  }

  ghost predicate Shares(x: nat, y: nat)
    requires STACK <= x && STACK <= y
  {
    exists page: nat :: Covers(x, page) && Covers(y, page)
  }

  lemma AloneIff(x: nat)
    requires STACK <= x
    ensures Alone(x) <==> x % PGSIZE == 0
  {
    if x % PGSIZE != 0 {
      assert OnPages(x, x);
    }
  }

  /** Stacks with tops two pages apart share a page exactly when the lower one is not aligned and the
      upper one is no further than that. */
  lemma SharesIff(x: nat, y: nat)
    requires STACK <= x && x + STACK <= y
    ensures Shares(x, y) <==> x % PGSIZE != 0 && y / PGSIZE == x / PGSIZE + 2
  {
    if x % PGSIZE != 0 && y / PGSIZE == x / PGSIZE + 2 {
      assert Covers(x, x / PGSIZE) && Covers(y, x / PGSIZE);
    }
  }

  /** No byte below `sz` is on the pages of the stack. */
  ghost predicate Beyond(x: nat, sz: nat)
    requires STACK <= x
  {
    forall a: nat :: a < sz ==> !OnPages(x, a)
  }

  /** ualloc's new stack keeps off the memory there was exactly when that ended with a page. */
  lemma BeyondIff(sz: nat)
    ensures Beyond(sz + STACK, sz) <==> sz % PGSIZE == 0
  {
    if sz % PGSIZE != 0 {
      assert OnPages(sz + STACK, sz - 1);
    }
  }

  /** Two calls of ualloc in a row: the guard of the second stack is the last page of the first exactly
      when the first call found an odd size. */
  lemma SecondShares(sz: nat)
    ensures Shares(sz + STACK, sz + STACK + STACK) <==> sz % PGSIZE != 0
    ensures sz % PGSIZE != 0 ==> GuardPage(sz + STACK + STACK) == LastPage(sz + STACK)
  {
    SharesIff(sz + STACK, sz + STACK + STACK);
  }

  /** As after an image of three pages and an sbrk of eight bytes. */
  lemma OddSizeShares()
    ensures var x, y := 3 * PGSIZE + 8 + STACK, 3 * PGSIZE + 8 + STACK + STACK;
            !Beyond(x, 3 * PGSIZE + 8) && Shares(x, y)
  {
    BeyondIff(3 * PGSIZE + 8);
    SecondShares(3 * PGSIZE + 8);
  }

  /** All stacks end with a page. */
  ghost predicate Aligned(ps: seq<Proc>, ts: seq<Thread>) {
    && (forall t :: 0 <= t < |ts| && ts[t].mp != NOBODY ==> ts[t].usp % PGSIZE == 0)
    && (forall p, i :: 0 <= p < |ps| && 0 <= i < |ps[p].fslist| ==> ps[p].fslist[i] % PGSIZE == 0)
  }

  /** Then every stack has its pages to itself. */
  lemma AlignedAlone(ps: seq<Proc>, ts: seq<Thread>, p: nat)
    requires Ok(ps, ts) && Aligned(ps, ts) && p < |ps|
    ensures forall t :: 0 <= t < |ts| && ts[t].mp == p ==> STACK <= ts[t].usp && Alone(ts[t].usp)
    ensures forall i :: 0 <= i < |ps[p].fslist| ==> STACK <= ps[p].fslist[i] && Alone(ps[p].fslist[i])
  {
    assert ListOk(ps[p]) && HeldOk(ts, p, ps[p]);
    forall t | 0 <= t < |ts| && ts[t].mp == p ensures STACK <= ts[t].usp && Alone(ts[t].usp) { AloneIff(ts[t].usp); }
    forall i | 0 <= i < |ps[p].fslist| ensures STACK <= ps[p].fslist[i] && Alone(ps[p].fslist[i]) {
      AloneIff(ps[p].fslist[i]);
    }
  }

  // ---- the stacks of a process -----------------------------------------------------------------

  ghost predicate ListOk(p: Proc) {
    && (forall i :: 0 <= i < |p.fslist| ==> Inside(p.fslist[i], p.sz))
    && (forall i, j :: 0 <= i < j < |p.fslist| ==> Far(p.fslist[i], p.fslist[j]))
  }

  /** The stacks held by `p`'s threads are disjoint from each other and from the free ones. */
  ghost predicate HeldOk(ts: seq<Thread>, p: nat, pr: Proc) {
    && (forall t :: 0 <= t < |ts| && ts[t].mp == p ==> Inside(ts[t].usp, pr.sz))
    && (forall t, u :: 0 <= t < u < |ts| && ts[t].mp == p && ts[u].mp == p ==> Far(ts[t].usp, ts[u].usp))
    && (forall t, i :: 0 <= t < |ts| && ts[t].mp == p && 0 <= i < |pr.fslist| ==> Far(ts[t].usp, pr.fslist[i]))
  }

  ghost predicate Ok(ps: seq<Proc>, ts: seq<Thread>) {
    && (forall t :: 0 <= t < |ts| && ts[t].mp != NOBODY ==> 0 <= ts[t].mp < |ps| && ps[ts[t].mp].used)
    && (forall p :: 0 <= p < |ps| ==> ListOk(ps[p]) && HeldOk(ts, p, ps[p]))
  }

  /** Free stacks have no duplicates, and none is held by a thread; no two threads share one. */
  lemma Partition(ps: seq<Proc>, ts: seq<Thread>, p: nat)
    requires Ok(ps, ts) && p < |ps|
    ensures forall i, j :: 0 <= i < j < |ps[p].fslist| ==> ps[p].fslist[i] != ps[p].fslist[j]
    ensures forall t, u :: 0 <= t < u < |ts| && ts[t].mp == p && ts[u].mp == p ==> ts[t].usp != ts[u].usp
    ensures forall t :: 0 <= t < |ts| && ts[t].mp == p ==> ts[t].usp !in ps[p].fslist
  {
    assert HeldOk(ts, p, ps[p]);
  }

  /** `x` is a stack of `p` other than `cur`'s. */
  ghost predicate Other(ps: seq<Proc>, ts: seq<Thread>, p: nat, cur: nat, x: nat)
    requires p < |ps|
  {
    x in ps[p].fslist || exists t :: 0 <= t < |ts| && t != cur && ts[t].mp == p && ts[t].usp == x
  }

  /** `c` collects `p`'s first `i` free stacks and the stacks of its first `n` threads but `cur`. */
  ghost predicate Collected(c: seq<nat>, ps: seq<Proc>, ts: seq<Thread>, p: nat, cur: nat, i: nat, n: nat)
    requires p < |ps| && i <= |ps[p].fslist| && n <= |ts|
  {
    && (forall x :: x in c ==>
      x in ps[p].fslist[..i] || exists t :: 0 <= t < n && t != cur && ts[t].mp == p && ts[t].usp == x)
    && (forall k :: 0 <= k < i ==> ps[p].fslist[k] in c)
    && (forall t :: 0 <= t < n && t != cur && ts[t].mp == p ==> ts[t].usp in c)
    && (forall a, b :: 0 <= a < b < |c| ==> Far(c[a], c[b]))
    && (forall a :: 0 <= a < |c| ==> Inside(c[a], ps[p].sz))
  }

  lemma Belongs(ps: seq<Proc>, ts: seq<Thread>, t: nat)
    requires Ok(ps, ts) && t < |ts| && ts[t].mp != NOBODY
    ensures 0 <= ts[t].mp < |ps| && ps[ts[t].mp].used
  {
  }

  lemma CollectNone(ps: seq<Proc>, ts: seq<Thread>, p: nat, cur: nat)
    requires p < |ps|
    ensures Collected([], ps, ts, p, cur, 0, 0)
  {
  }

  lemma CollectSkip(c: seq<nat>, ps: seq<Proc>, ts: seq<Thread>, p: nat, cur: nat, n: nat)
    requires p < |ps| && n < |ts| && (n == cur || ts[n].mp != p) && Collected(c, ps, ts, p, cur, |ps[p].fslist|, n)
    ensures Collected(c, ps, ts, p, cur, |ps[p].fslist|, n + 1)
  {
  }

  lemma CollectFree(c: seq<nat>, ps: seq<Proc>, ts: seq<Thread>, p: nat, cur: nat, i: nat)
    requires Ok(ps, ts) && p < |ps| && i < |ps[p].fslist| && Collected(c, ps, ts, p, cur, i, 0)
    ensures Collected([ps[p].fslist[i]] + c, ps, ts, p, cur, i + 1, 0)
  {
    var l := ps[p].fslist;
    assert ListOk(ps[p]);
    forall a | 0 <= a < |c| ensures Far(l[i], c[a]) {
      assert c[a] in l[..i];
    }
  }

  lemma CollectHeld(c: seq<nat>, ps: seq<Proc>, ts: seq<Thread>, p: nat, cur: nat, n: nat)
    requires Ok(ps, ts) && p < |ps| && n < |ts| && n != cur && ts[n].mp == p
    requires Collected(c, ps, ts, p, cur, |ps[p].fslist|, n)
    ensures Collected([ts[n].usp] + c, ps, ts, p, cur, |ps[p].fslist|, n + 1)
  {
    assert HeldOk(ts, p, ps[p]);
    forall a | 0 <= a < |c| ensures Far(ts[n].usp, c[a]) {
      assert c[a] in c;
    }
  }

  lemma ChildOk(c: seq<nat>, ps: seq<Proc>, ts: seq<Thread>, p: nat, cur: nat, np: nat, nth: nat, ps': seq<Proc>,
                ts': seq<Thread>)
    requires Ok(ps, ts) && p < |ps| && cur < |ts| && ts[cur].mp == p
    requires Collected(c, ps, ts, p, cur, |ps[p].fslist|, |ts|)
    requires np < |ps| && !ps[np].used && nth < |ts| && ts[nth].mp == NOBODY
    requires ps' == ps[np := Proc(true, ps[p].sz, c)] && ts' == ts[nth := Thread(np, ts[cur].usp)]
    ensures Ok(ps', ts') && forall x :: x in c <==> Other(ps, ts, p, cur, x)
  {
    assert ListOk(ps[p]) && HeldOk(ts, p, ps[p]);
    assert ps[p].fslist[..|ps[p].fslist|] == ps[p].fslist;
    forall a | 0 <= a < |c| ensures Far(ts[cur].usp, c[a]) { assert c[a] in c; }
    forall q | 0 <= q < |ps| ensures ListOk(ps'[q]) && HeldOk(ts', q, ps'[q]) {
      assert ListOk(ps[q]) && HeldOk(ts, q, ps[q]);
    }
  }

  /** All of `p`'s stacks, held and free, lie below `sz`. */
  predicate StacksBelow(ps: seq<Proc>, ts: seq<Thread>, p: nat, sz: nat)
    requires p < |ps|
  {
    && (forall t :: 0 <= t < |ts| && ts[t].mp == p ==> ts[t].usp <= sz)
    && (forall i :: 0 <= i < |ps[p].fslist| ==> ps[p].fslist[i] <= sz)
  }

  /** A change of the process's size keeps the stacks in order exactly when it cuts none off. */
  lemma SizedOk(ps: seq<Proc>, ts: seq<Thread>, p: nat, sz: nat, ps': seq<Proc>)
    requires Ok(ps, ts) && p < |ps| && ps' == ps[p := ps[p].(sz := sz)]
    ensures Ok(ps', ts) <==> StacksBelow(ps, ts, p, sz)
  {
    assert ListOk(ps[p]) && HeldOk(ts, p, ps[p]);
    if StacksBelow(ps, ts, p, sz) {
      forall q | 0 <= q < |ps'| ensures ListOk(ps'[q]) && HeldOk(ts, q, ps'[q]) {
        assert ListOk(ps[q]) && HeldOk(ts, q, ps[q]);
      }
    }
    if Ok(ps', ts) { assert ListOk(ps'[p]) && HeldOk(ts, p, ps'[p]); }
  }

  lemma FirstOk(ps: seq<Proc>, ts: seq<Thread>, p: nat, t: nat, sz: nat, ps': seq<Proc>, ts': seq<Thread>)
    requires Ok(ps, ts) && p < |ps| && !ps[p].used && t < |ts| && ts[t].mp == NOBODY && STACK <= sz
    requires ps' == ps[p := Proc(true, sz, [])] && ts' == ts[t := Thread(p, sz)]
    ensures Ok(ps', ts')
  {
    forall q | 0 <= q < |ps'| ensures ListOk(ps'[q]) && HeldOk(ts', q, ps'[q]) {
      assert ListOk(ps[q]) && HeldOk(ts, q, ps[q]);
    }
  }

  /** A thread's stack becomes a free one. */
  lemma JoinedOk(ps: seq<Proc>, ts: seq<Thread>, t: nat, ps': seq<Proc>, ts': seq<Thread>)
    requires Ok(ps, ts) && t < |ts| && 0 <= ts[t].mp < |ps|
    requires ps' == ps[ts[t].mp := ps[ts[t].mp].(fslist := [ts[t].usp] + ps[ts[t].mp].fslist)]
    requires ts' == ts[t := Thread(NOBODY, 0)]
    ensures Ok(ps', ts')
  {
    var p := ts[t].mp;
    forall q | 0 <= q < |ps'| ensures ListOk(ps'[q]) && HeldOk(ts', q, ps'[q]) {
      assert ListOk(ps[q]) && HeldOk(ts, q, ps[q]);
      if q == p { PushedOk(ps[p], ts, t, p, ps'[p], ts'); }
    }
  }

  lemma PushedOk(pr: Proc, ts: seq<Thread>, t: nat, p: nat, pr': Proc, ts': seq<Thread>)
    requires ListOk(pr) && HeldOk(ts, p, pr) && t < |ts| && ts[t].mp == p
    requires pr' == pr.(fslist := [ts[t].usp] + pr.fslist) && ts' == ts[t := Thread(NOBODY, 0)]
    ensures ListOk(pr') && HeldOk(ts', p, pr')
  {
    var l := pr'.fslist;
    forall i, j | 0 <= i < j < |l| ensures Far(l[i], l[j]) {
      assert l[j] == pr.fslist[j - 1];
    }
    forall u, i | 0 <= u < |ts'| && ts'[u].mp == p && 0 <= i < |l| ensures Far(ts'[u].usp, l[i]) {
      assert u != t && (i > 0 ==> l[i] == pr.fslist[i - 1]);
    }
  }

  lemma ExecOk(ps: seq<Proc>, ts: seq<Thread>, cur: nat, sz: nat, ps': seq<Proc>, ts': seq<Thread>)
    requires Ok(ps, ts) && cur < |ts| && 0 <= ts[cur].mp < |ps| && STACK <= sz && |ts'| == |ts|
    requires ts'[cur] == ts[cur].(usp := sz) && ps' == ps[ts[cur].mp := Proc(true, sz, [])]
    requires forall t :: 0 <= t < |ts| && t != cur ==>
               ts'[t] == if ts[t].mp == ts[cur].mp then Thread(NOBODY, 0) else ts[t]
    ensures Ok(ps', ts')
  {
    forall q | 0 <= q < |ps'| ensures ListOk(ps'[q]) && HeldOk(ts', q, ps'[q]) {
      assert ListOk(ps[q]) && HeldOk(ts, q, ps[q]);
      if q == ts[cur].mp {
        assert forall t :: 0 <= t < |ts| && ts'[t].mp == q ==> t == cur;
      }
    }
  }

  datatype Event =
    | Userinits(p: nat, t: nat, sz: nat) | Sbrks(p: nat, sz: nat) | Create(p: nat, t: nat) | Join(t: nat)
    | Forks(cur: nat, np: nat, nth: nat) | Execs(cur: nat, sz: nat) | Reaps(p: nat)

  datatype Tables = Tables(procs: seq<Proc>, threads: seq<Thread>)

  /** The call finds the slots it needs; the image of an exec ends with a page. */
  predicate Enabled(e: Event, s: Tables) {
    match e
    case Userinits(p, t, sz) =>
      p < |s.procs| && !s.procs[p].used && t < |s.threads| && s.threads[t].mp == NOBODY && STACK <= sz
        && sz % PGSIZE == 0
    case Sbrks(p, sz) => p < |s.procs|
    case Create(p, t) => p < |s.procs| && s.procs[p].used && t < |s.threads| && s.threads[t].mp == NOBODY
    case Join(t) => t < |s.threads| && s.threads[t].mp != NOBODY
    case Forks(cur, np, nth) =>
      && cur < |s.threads| && s.threads[cur].mp != NOBODY && np < |s.procs| && !s.procs[np].used
        && s.procs[np].fslist == []
      && nth < |s.threads| && s.threads[nth].mp == NOBODY
    case Execs(cur, sz) => cur < |s.threads| && s.threads[cur].mp != NOBODY && STACK <= sz && sz % PGSIZE == 0
    case Reaps(p) => p < |s.procs|
  }

  /** What the call does. */
  ghost predicate Did(e: Event, s: Tables, t: Tables)
    requires Enabled(e, s) && Ok(s.procs, s.threads)
  {
    match e
    case Userinits(p, th, sz) => t == Tables(s.procs[p := Proc(true, sz, [])], s.threads[th := Thread(p, sz)])
    case Sbrks(p, sz) => t == s.(procs := s.procs[p := s.procs[p].(sz := sz)])
    case Create(p, th) =>
      var pr := s.procs[p];
      if pr.fslist == []
      then t == Tables(s.procs[p := pr.(sz := pr.sz + STACK)], s.threads[th := Thread(p, pr.sz + STACK)])
      else t == Tables(s.procs[p := pr.(fslist := pr.fslist[1..])], s.threads[th := Thread(p, pr.fslist[0])])
    case Join(th) =>
      var x := s.threads[th];
      t == Tables(s.procs[x.mp := s.procs[x.mp].(fslist := [x.usp] + s.procs[x.mp].fslist)],
          s.threads[th := Thread(NOBODY, 0)])
    case Forks(cur, np, nth) =>
      var p := s.threads[cur].mp;
      && t.threads == s.threads[nth := Thread(np, s.threads[cur].usp)] && |t.procs| == |s.procs|
      && t.procs == s.procs[np := Proc(true, s.procs[p].sz, t.procs[np].fslist)]
      && forall x :: x in t.procs[np].fslist <==> Other(s.procs, s.threads, p, cur, x)
    case Execs(cur, sz) =>
      var p := s.threads[cur].mp;
      && t.procs == s.procs[p := Proc(true, sz, [])]
      && |t.threads| == |s.threads| && t.threads[cur] == s.threads[cur].(usp := sz)
      && Cleared(s.threads, t.threads, p, cur)
    case Reaps(p) =>
      && t.procs == s.procs[p := Proc(false, s.procs[p].sz, [])]
      && |t.threads| == |s.threads| && Cleared(s.threads, t.threads, p, NOBODY)
  }

  /** All slots of the process but `cur`'s are given up, the others stay. */
  ghost predicate Cleared(ts: seq<Thread>, ts': seq<Thread>, p: int, cur: int)
    requires |ts| == |ts'|
  {
    forall t :: 0 <= t < |ts| && t != cur ==> ts'[t] == if ts[t].mp == p then Thread(NOBODY, 0) else ts[t]
  }

  /** An sbrk that leaves a stack above the process's size. */
  predicate Cuts(e: Event, s: Tables) {
    e.Sbrks? && e.p < |s.procs| && !StacksBelow(s.procs, s.threads, e.p, e.sz)
  }

  /** A thread_create that has to make a stack and finds an odd size. */
  predicate Misplaces(e: Event, s: Tables) {
    e.Create? && Enabled(e, s) && s.procs[e.p].fslist == [] && s.procs[e.p].sz % PGSIZE != 0
  }

  /** Nothing else puts a stack where it shares a page. */
  lemma StaysAligned(e: Event, s: Tables, t: Tables)
    requires Ok(s.procs, s.threads) && Aligned(s.procs, s.threads) && Enabled(e, s) && Did(e, s, t)
    ensures Aligned(t.procs, t.threads) <==> !Misplaces(e, s)
  {
    match e {
      case Forks(cur, np, nth) => ForkAligned(s, t, cur, np, nth);
      case Create(p, th) =>
        if Misplaces(e, s) { assert t.threads[th].usp % PGSIZE != 0; }
      case Join(th) => Belongs(s.procs, s.threads, th);
      case Userinits(p, th, sz) =>
      case Sbrks(p, sz) =>
      case Execs(cur, sz) =>
      case Reaps(p) =>
    }
  }

  lemma ForkAligned(s: Tables, t: Tables, cur: nat, np: nat, nth: nat)
    requires Ok(s.procs, s.threads) && Aligned(s.procs, s.threads) && Enabled(Forks(cur, np, nth), s)
    requires Did(Forks(cur, np, nth), s, t)
    ensures Aligned(t.procs, t.threads)
  {
    var p := s.threads[cur].mp;
    forall i | 0 <= i < |t.procs[np].fslist| ensures t.procs[np].fslist[i] % PGSIZE == 0 {
      assert Other(s.procs, s.threads, p, cur, t.procs[np].fslist[i]);
    }
  }

  /** The calls made one after the other, those that find no slot left out, and none that cuts a stack off. */
  ghost predicate Follows(events: seq<Event>, done: nat, states: seq<Tables>) {
    && done <= |events| && |states| == done + 1
    && forall k :: 0 <= k < done ==>
         && Ok(states[k].procs, states[k].threads) && !Cuts(events[k], states[k])
         && if Enabled(events[k], states[k]) then Did(events[k], states[k], states[k + 1])
            else states[k + 1] == states[k]
  }

  class Stacks {
    var procs: seq<Proc>
    var threads: seq<Thread>

    ghost predicate Valid()
      reads this
    {
      Ok(procs, threads)
    }

    constructor (nproc: nat, nthread: nat)
      ensures Valid() && |procs| == nproc && |threads| == nthread
    {
      procs := seq(nproc, i => Proc(false, 0, []));
      threads := seq(nthread, i => Thread(NOBODY, 0));
    }

    /** userinit and the exec that initcode makes: the first process, with the one stack of its image. */
    method Userinit(p: nat, t: nat, sz: nat)
      requires Valid() && p < |procs| && !procs[p].used && t < |threads| && threads[t].mp == NOBODY && STACK <= sz
      modifies this
      ensures Valid() && procs == old(procs)[p := Proc(true, sz, [])] && threads == old(threads)[t := Thread(p, sz)]
    {
      FirstOk(procs, threads, p, t, sz, procs[p := Proc(true, sz, [])], threads[t := Thread(p, sz)]);
      procs := procs[p := Proc(true, sz, [])];
      threads := threads[t := Thread(p, sz)];
    }

    /** growproc to any size `sz`: the stacks stay in order exactly when none is cut off. */
    method Sbrk(p: nat, sz: nat)
      requires Valid() && p < |procs|
      modifies this`procs
      ensures procs == old(procs)[p := old(procs)[p].(sz := sz)]
      ensures Valid() <==> StacksBelow(old(procs), threads, p, sz)
    {
      SizedOk(procs, threads, p, sz, procs[p := procs[p].(sz := sz)]);
      procs := procs[p := procs[p].(sz := sz)];
    }

    /** ualloc: a free stack if there is one, two new pages at the end otherwise, which keep off the memory
        there was exactly when that ended with a page. */
    method Ualloc(p: nat) returns (sp: nat)
      requires Valid() && p < |procs|
      modifies this`procs
      ensures Valid() && |procs| == |old(procs)| && procs == old(procs)[p := procs[p]]
      ensures procs[p].used == old(procs)[p].used
      ensures Inside(sp, procs[p].sz) && old(procs)[p].sz <= procs[p].sz
      ensures forall i :: 0 <= i < |procs[p].fslist| ==> Far(sp, procs[p].fslist[i])
      ensures forall t :: 0 <= t < |threads| && threads[t].mp == p ==> Far(sp, threads[t].usp)
      ensures old(procs)[p].fslist != [] ==>
                procs[p] == old(procs)[p].(fslist := procs[p].fslist) && [sp] + procs[p].fslist == old(procs)[p].fslist
      ensures old(procs)[p].fslist == [] ==>
                && procs[p] == old(procs)[p].(sz := old(procs)[p].sz + STACK) && sp == procs[p].sz
                && (Beyond(sp, old(procs)[p].sz) <==> old(procs)[p].sz % PGSIZE == 0)
    {
      BeyondIff(procs[p].sz);
      assert ListOk(procs[p]) && HeldOk(threads, p, procs[p]);
      if procs[p].fslist == [] {
        sp := procs[p].sz + STACK;
        procs := procs[p := procs[p].(sz := sp)];
      } else {
        sp := procs[p].fslist[0];
        procs := procs[p := procs[p].(fslist := procs[p].fslist[1..])];
      }
      forall q | 0 <= q < |procs| ensures ListOk(procs[q]) && HeldOk(threads, q, procs[q]) {
        assert ListOk(old(procs)[q]) && HeldOk(threads, q, old(procs)[q]);
      }
    }

    method ThreadCreate(p: nat, t: nat)
      requires Valid() && p < |procs| && procs[p].used && t < |threads| && threads[t].mp == NOBODY
      modifies this
      ensures Valid() && |procs| == |old(procs)| && |threads| == |old(threads)|
      ensures threads == old(threads)[t := Thread(p, threads[t].usp)]
      ensures var pr := old(procs)[p];
              if pr.fslist == []
              then procs == old(procs)[p := pr.(sz := threads[t].usp)] && threads[t].usp == pr.sz + STACK
              else procs == old(procs)[p := pr.(fslist := pr.fslist[1..])] && threads[t].usp == pr.fslist[0]
    {
      var sp := Ualloc(p);
      assert ListOk(procs[p]) && HeldOk(threads, p, procs[p]);
      threads := threads[t := Thread(p, sp)];
      forall q | 0 <= q < |procs| ensures HeldOk(threads, q, procs[q]) {
        assert HeldOk(old(threads), q, procs[q]);
      }
    }

    /** thread_join of thread `t`: its stack becomes the first free one. */
    method ThreadJoin(t: nat)
      requires Valid() && t < |threads| && threads[t].mp != NOBODY
      modifies this
      ensures Valid() && |procs| == |old(procs)| && threads == old(threads)[t := Thread(NOBODY, 0)]
      ensures procs == old(procs)[old(threads)[t].mp := old(procs)[old(threads)[t].mp].(fslist :=
                [old(threads)[t].usp] + old(procs)[old(threads)[t].mp].fslist)]
    {
      var p, sp := threads[t].mp, threads[t].usp;
      JoinedOk(procs, threads, t, procs[p := procs[p].(fslist := [sp] + procs[p].fslist)],
          threads[t := Thread(NOBODY, 0)]);
      procs := procs[p := procs[p].(fslist := [sp] + procs[p].fslist)];
      threads := threads[t := Thread(NOBODY, 0)];
    }

    /** fork by thread `cur`: the child's free list holds exactly every stack of the parent but
        the caller's, which the child's own thread has. */
    method Fork(cur: nat, np: nat, nth: nat)
      requires Valid() && cur < |threads| && threads[cur].mp != NOBODY
      requires np < |procs| && !procs[np].used && procs[np].fslist == [] && nth < |threads| && threads[nth].mp == NOBODY
      modifies this
      ensures Valid() && |procs| == |old(procs)|
      ensures threads == old(threads)[nth := Thread(np, old(threads)[cur].usp)]
      ensures procs == old(procs)[np := Proc(true, old(procs)[old(threads)[cur].mp].sz, procs[np].fslist)]
      ensures forall x :: x in procs[np].fslist <==> Other(old(procs), old(threads), old(threads)[cur].mp, cur, x)
    {
      hide Ok, Collected, Other;
      Belongs(procs, threads, cur);
      var p := threads[cur].mp;
      var c: seq<nat> := [];
      CollectNone(procs, threads, p, cur);
      for i := 0 to |procs[p].fslist|
        invariant procs == old(procs) && threads == old(threads) && Collected(c, procs, threads, p, cur, i, 0)
      {
        CollectFree(c, procs, threads, p, cur, i);
        c := [procs[p].fslist[i]] + c;
      }
      for t := 0 to |threads|
        invariant procs == old(procs) && threads == old(threads)
        invariant Collected(c, procs, threads, p, cur, |procs[p].fslist|, t)
      {
        if threads[t].mp == p && t != cur {
          CollectHeld(c, procs, threads, p, cur, t);
          c := [threads[t].usp] + c;
        } else {
          CollectSkip(c, procs, threads, p, cur, t);
        }
      }
      ChildOk(c, procs, threads, p, cur, np, nth, procs[np := Proc(true, procs[p].sz, c)],
          threads[nth := Thread(np, threads[cur].usp)]);
      procs := procs[np := Proc(true, procs[p].sz, c)];
      threads := threads[nth := Thread(np, threads[cur].usp)];
    }

    /** exec by the last thread `cur`: the zombies' slots are cleared, and the one stack is the top of the new image. */
    method Exec(cur: nat, sz: nat)
      requires Valid() && cur < |threads| && threads[cur].mp != NOBODY && STACK <= sz
      modifies this
      ensures Valid() && |procs| == |old(procs)| && |threads| == |old(threads)|
      ensures threads[cur] == old(threads)[cur].(usp := sz)
      ensures forall t :: 0 <= t < |threads| && t != cur ==>
                threads[t] == if old(threads)[t].mp == threads[cur].mp then Thread(NOBODY, 0) else old(threads)[t]
      ensures procs == old(procs)[threads[cur].mp := Proc(true, sz, [])]
    {
      var p := threads[cur].mp;
      for t := 0 to |threads|
        invariant |threads| == |old(threads)| && procs == old(procs) && threads[cur] == old(threads)[cur]
        invariant forall u :: 0 <= u < t && u != cur ==>
                    threads[u] == if old(threads)[u].mp == p then Thread(NOBODY, 0) else old(threads)[u]
        invariant forall u :: t <= u < |threads| ==> threads[u] == old(threads)[u]
      {
        if t != cur && threads[t].mp == p { threads := threads[t := Thread(NOBODY, 0)]; }
      }
      procs := procs[p := Proc(true, sz, [])];
      threads := threads[cur := threads[cur].(usp := sz)];
      ExecOk(old(procs), old(threads), cur, sz, procs, threads);
    }

    /** wait reaps process `p`: its threads' slots and its free list are gone. */
    method Reap(p: nat)
      requires Valid() && p < |procs|
      modifies this
      ensures Valid() && |threads| == |old(threads)| && procs == old(procs)[p := Proc(false, old(procs)[p].sz, [])]
      ensures forall t :: 0 <= t < |threads| ==>
                threads[t] == if old(threads)[t].mp == p then Thread(NOBODY, 0) else old(threads)[t]
    {
      for t := 0 to |threads|
        invariant |threads| == |old(threads)| && procs == old(procs)
        invariant forall u :: 0 <= u < t ==>
                    threads[u] == if old(threads)[u].mp == p then Thread(NOBODY, 0) else old(threads)[u]
        invariant forall u :: t <= u < |threads| ==> threads[u] == old(threads)[u]
      {
        if threads[t].mp == p { threads := threads[t := Thread(NOBODY, 0)]; }
      }
      assert ListOk(procs[p]);
      procs := procs[p := Proc(false, procs[p].sz, [])];
      forall q | 0 <= q < |procs| ensures ListOk(procs[q]) && HeldOk(threads, q, procs[q]) {
        assert ListOk(old(procs)[q]) && HeldOk(old(threads), q, old(procs)[q]);
      }
    }

    /** The call, if it finds the slots it needs. */
    method Step(e: Event)
      requires Valid() && !Cuts(e, Tables(procs, threads))
      modifies this
      ensures Valid()
      ensures var s := Tables(old(procs), old(threads));
              if Enabled(e, s) then Did(e, s, Tables(procs, threads))
              else procs == old(procs) && threads == old(threads)
    {
      hide Ok, Other, StacksBelow;
      if !Enabled(e, Tables(procs, threads)) { return; }
      match e {
        case Userinits(p, t, sz) => Userinit(p, t, sz);
        case Sbrks(p, sz) => Sbrk(p, sz);
        case Create(p, t) => ThreadCreate(p, t);
        case Join(t) => Belongs(procs, threads, t); ThreadJoin(t);
        case Forks(cur, np, nth) => Belongs(procs, threads, cur); Fork(cur, np, nth);
        case Execs(cur, sz) => Belongs(procs, threads, cur); Exec(cur, sz);
        case Reaps(p) => Reap(p);
      }
    }

    /** Any sequence of these calls, up to the first sbrk that cuts a stack off, keeps all stacks inside
        their processes and two pages apart. */
    method Run(events: seq<Event>) returns (done: nat, ghost states: seq<Tables>)
      requires Valid()
      modifies this
      ensures Valid() && Follows(events, done, states)
      ensures states[0] == Tables(old(procs), old(threads)) && states[done] == Tables(procs, threads)
      ensures done < |events| ==> Cuts(events[done], states[done])
    {
      hide Ok, StacksBelow, Did;
      done, states := 0, [Tables(procs, threads)];
      while done < |events|
        invariant Valid() && Follows(events, done, states)
        invariant states[0] == Tables(old(procs), old(threads)) && states[done] == Tables(procs, threads)
      {
        if Cuts(events[done], Tables(procs, threads)) { return; }
        Step(events[done]);
        states, done := states + [Tables(procs, threads)], done + 1;
      }
    }
  }
}
