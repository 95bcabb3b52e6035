/** umalloc.c's heap: memory in units of one header, a circular list of free blocks in
    address order that starts at `base`, and blocks that tile what sbrk has given. */
module HeapList {

  /** A block header: the next free block, and the size of this block in units. */
  datatype Header = Header(ptr: nat, size: nat)

  type Memory = seq<Header>

  /** The block each unit belongs to, named by its first unit. */
  type Tiling = map<nat, nat>

  const BASE: nat := 0

  // ---- the free list --------------------------------------------------------------------

  function Next(fl: seq<nat>, i: nat): nat
    requires i < |fl|
  {
    if i + 1 < |fl| then fl[i + 1] else fl[0]
  }

  /** `fl` lists the free blocks from `base` on; the pointers run through it in a circle. */
  ghost predicate ListOk(mem: Memory, fl: seq<nat>) {
    && 0 < |fl| && fl[0] == BASE && 0 < |mem| && mem[BASE].size == 0
    && (forall i :: 0 <= i < |fl| ==> fl[i] < |mem|)
    && (forall i, j :: 0 <= i < j < |fl| ==> fl[i] < fl[j])
    && (forall i {:trigger Next(fl, i)} :: 0 <= i < |fl| ==> mem[fl[i]].ptr == Next(fl, i))
  }

  /** No free block ends where the next one begins, except perhaps those at lo..hi-1. */
  ghost predicate ApartBut(mem: Memory, fl: seq<nat>, lo: nat, hi: nat)
    requires forall i :: 0 <= i < |fl| ==> fl[i] < |mem|
  {
    forall i {:trigger Next(fl, i)} :: 0 <= i < |fl| - 1 && !(lo <= i < hi) ==> fl[i] + mem[fl[i]].size < Next(fl, i)
  }

  ghost predicate Apart(mem: Memory, fl: seq<nat>)
    requires forall i :: 0 <= i < |fl| ==> fl[i] < |mem|
  {
    ApartBut(mem, fl, 0, 0)
  }

  // ---- the tiling -----------------------------------------------------------------------

  predicate Start(home: Tiling, a: nat) { a in home && home[a] == a }

  /** Unit `u` lies in the block at `a`, by its header. */
  predicate InBlock(mem: Memory, a: nat, u: nat) { a < |mem| && a <= u < a + mem[a].size }

  /** Every unit obtained belongs to exactly one block, and blocks hold no others. */
  ghost predicate Tiled(mem: Memory, home: Tiling) {
    && (forall u :: u in home ==> Start(home, home[u]) && 1 <= home[u] && u < |mem| && InBlock(mem, home[u], u))
    && (forall a: nat, u: nat {:trigger InBlock(mem, a, u)} :: Start(home, a) && InBlock(mem, a, u) ==>
      u in home && home[u] == a)
  }

  ghost predicate HeapOk(mem: Memory, fl: seq<nat>, home: Tiling) {
    && ListOk(mem, fl)
    && Tiled(mem, home)
    && (forall i :: 1 <= i < |fl| ==> Start(home, fl[i]))
  }

  /** Blocks do not overlap. */
  lemma BlocksDisjoint(mem: Memory, home: Tiling, a: nat, b: nat)
    requires Tiled(mem, home) && Start(home, a) && Start(home, b) && a < b
    ensures a + mem[a].size <= b
  {
    assert InBlock(mem, b, b) && !InBlock(mem, a, b);
  }

  // ---- changes --------------------------------------------------------------------------

  /** Link block `b` in behind block `p`. */
  function Linked(mem: Memory, p: nat, b: nat): Memory
    requires p < |mem| && b < |mem|
  {
    mem[b := Header(mem[p].ptr, mem[b].size)][p := Header(b, mem[p].size)]
  }

  function Inserted(fl: seq<nat>, i: nat, b: nat): seq<nat>
    requires i < |fl|
  {
    fl[..i + 1] + [b] + fl[i + 1..]
  }

  /** `l` is `fl` with one more entry at `k`. */
  ghost predicate OneMore(fl: seq<nat>, k: nat, b: nat, l: seq<nat>) {
    && |l| == |fl| + 1 && k <= |fl| && l[k] == b
    && (forall j :: 0 <= j < k ==> l[j] == fl[j])
    && (forall j :: k < j < |l| ==> l[j] == fl[j - 1])
  }

  lemma LinkedNext(mem: Memory, fl: seq<nat>, i: nat, b: nat, m: Memory, l: seq<nat>, k: nat)
    requires ListOk(mem, fl) && i < |fl| && b < |mem| && fl[i] < b && (i + 1 < |fl| ==> b < fl[i + 1])
    requires m == Linked(mem, fl[i], b) && OneMore(fl, i + 1, b, l) && k < |l|
    ensures l[k] < |m| && m[l[k]].ptr == Next(l, k)
  {
    if k < i {
      assert l[k + 1] == fl[k + 1] && mem[fl[k]].ptr == Next(fl, k);
      assert fl[k] != fl[i] && fl[k] != b;
    } else if k == i {
      assert l[k + 1] == b;
    } else if k == i + 1 {
      assert mem[fl[i]].ptr == Next(fl, i);
      if k + 1 < |l| { assert l[k + 1] == fl[i + 1]; }
    } else {
      assert l[k] == fl[k - 1] && mem[fl[k - 1]].ptr == Next(fl, k - 1);
      assert fl[k - 1] != fl[i] && fl[k - 1] != b;
      if k + 1 < |l| { assert l[k + 1] == fl[k]; }
    }
  }

  lemma OneMoreSorted(fl: seq<nat>, i: nat, b: nat, l: seq<nat>)
    requires i < |fl| && fl[i] < b && (i + 1 < |fl| ==> b < fl[i + 1]) && OneMore(fl, i + 1, b, l)
    requires forall i, j :: 0 <= i < j < |fl| ==> fl[i] < fl[j]
    ensures forall i, j :: 0 <= i < j < |l| ==> l[i] < l[j]
  {
    forall x, y | 0 <= x < y < |l| ensures l[x] < l[y] {
      if x == i + 1 { assert l[y] == fl[y - 1]; }
    }
  }

  lemma LinkedListAt(mem: Memory, fl: seq<nat>, i: nat, b: nat, m: Memory, l: seq<nat>)
    requires ListOk(mem, fl) && i < |fl| && b < |mem| && fl[i] < b && (i + 1 < |fl| ==> b < fl[i + 1])
    requires m == Linked(mem, fl[i], b) && OneMore(fl, i + 1, b, l)
    ensures ListOk(m, l)
  {
    OneMoreSorted(fl, i, b, l);
    forall k | 0 <= k < |l| ensures l[k] < |m| && m[l[k]].ptr == Next(l, k) { LinkedNext(mem, fl, i, b, m, l, k); }
  }

  lemma LinkedList(mem: Memory, fl: seq<nat>, i: nat, b: nat)
    requires ListOk(mem, fl) && i < |fl| && b < |mem| && fl[i] < b && (i + 1 < |fl| ==> b < fl[i + 1])
    ensures ListOk(Linked(mem, fl[i], b), Inserted(fl, i, b))
  {
    LinkedListAt(mem, fl, i, b, Linked(mem, fl[i], b), Inserted(fl, i, b));
  }

  /** Let block `a` swallow the next one on the list. */
  function Joined(mem: Memory, a: nat): Memory
    requires a < |mem| && mem[a].ptr < |mem|
  {
    mem[a := Header(mem[mem[a].ptr].ptr, mem[a].size + mem[mem[a].ptr].size)]
  }

  function Dropped(fl: seq<nat>, i: nat): seq<nat>
    requires i < |fl|
  {
    fl[..i] + fl[i + 1..]
  }

  ghost function JoinedHome(home: Tiling, a: nat, b: nat): Tiling {
    map u | u in home :: if home[u] == b then a else home[u]
  }

  lemma JoinedNext(mem: Memory, fl: seq<nat>, i: nat, m: Memory, l: seq<nat>, k: nat)
    requires ListOk(mem, fl) && i + 1 < |fl| && |m| == |mem|
    requires m == mem[fl[i] := Header(Next(fl, i + 1), m[fl[i]].size)]
    requires OneMore(l, i + 1, fl[i + 1], fl) && k < |l|
    ensures l[k] < |m| && m[l[k]].ptr == Next(l, k)
  {
    if k < i {
      assert l[k] == fl[k] && l[k + 1] == fl[k + 1] && mem[fl[k]].ptr == Next(fl, k);
    } else if k == i {
      assert l[k] == fl[k];
      if k + 1 < |l| { assert fl[k + 2] == l[k + 1]; }
    } else {
      assert fl[k + 1] == l[k] && mem[fl[k + 1]].ptr == Next(fl, k + 1);
      if k + 1 < |l| { assert fl[k + 2] == l[k + 1]; }
    }
  }

  lemma OneLessSorted(fl: seq<nat>, i: nat, l: seq<nat>)
    requires i + 1 < |fl| && OneMore(l, i + 1, fl[i + 1], fl)
    requires forall i, j :: 0 <= i < j < |fl| ==> fl[i] < fl[j]
    ensures forall i, j :: 0 <= i < j < |l| ==> l[i] < l[j]
  {
    forall x, y | 0 <= x < y < |l| ensures l[x] < l[y] {
      assert l[x] == if x <= i then fl[x] else fl[x + 1];
      assert l[y] == if y <= i then fl[y] else fl[y + 1];
    }
  }

  lemma JoinedListAt(mem: Memory, fl: seq<nat>, i: nat, m: Memory, l: seq<nat>)
    requires ListOk(mem, fl) && i + 1 < |fl| && |m| == |mem| && (i == 0 ==> m[BASE].size == 0)
    requires m == mem[fl[i] := Header(Next(fl, i + 1), m[fl[i]].size)]
    requires OneMore(l, i + 1, fl[i + 1], fl)
    ensures ListOk(m, l)
  {
    OneLessSorted(fl, i, l);
    forall k | 0 <= k < |l| ensures l[k] < |m| && m[l[k]].ptr == Next(l, k) { JoinedNext(mem, fl, i, m, l, k); }
  }

  // ---- what the changes do to the tiling -------------------------------------------------

  lemma SameSizesTiled(mem: Memory, m: Memory, home: Tiling)
    requires Tiled(mem, home) && |m| == |mem| && forall a :: 0 <= a < |mem| ==> m[a].size == mem[a].size
    ensures Tiled(m, home)
  {
    forall u | u in home ensures InBlock(m, home[u], u) {}
    forall a: nat, u: nat | Start(home, a) && InBlock(m, a, u) ensures u in home && home[u] == a {
      assert InBlock(mem, a, u);
    }
  }

  lemma JoinedTiled(mem: Memory, home: Tiling, a: nat, b: nat, m: Memory, h: Tiling)
    requires Tiled(mem, home) && Start(home, a) && Start(home, b) && a < |mem| && b < |mem| && a + mem[a].size == b
    requires |m| == |mem| && m == mem[a := m[a]] && m[a].size == mem[a].size + mem[b].size
    requires h == JoinedHome(home, a, b)
    ensures Tiled(m, h)
    ensures forall x :: Start(home, x) && x != b ==> Start(h, x)
  {
    assert InBlock(mem, a, a);
    forall u | u in h ensures Start(h, h[u]) && 1 <= h[u] && u < |m| && InBlock(m, h[u], u) {
      assert u in home && InBlock(mem, home[u], u);
    }
    forall x: nat, u: nat | Start(h, x) && InBlock(m, x, u) ensures u in h && h[u] == x {
      if x != a {
        assert InBlock(mem, x, u);
      } else if u < b {
        assert InBlock(mem, a, u);
      } else {
        assert InBlock(mem, b, u);
      }
    }
  }

  /** Cut the units from `q` on off block `a` as a block of their own. */
  ghost function SplitHome(home: Tiling, a: nat, q: nat): Tiling {
    map u | u in home :: if home[u] == a && q <= u then q else home[u]
  }

  lemma SplitTiled(mem: Memory, home: Tiling, a: nat, n: nat, q: nat, m: Memory, h: Tiling)
    requires Tiled(mem, home) && Start(home, a) && a < |mem| && 0 < n < mem[a].size && |m| == |mem|
    requires q == a + mem[a].size - n && q < |mem| && h == SplitHome(home, a, q)
    requires m[a].size == mem[a].size - n && m[q].size == n
    requires forall x :: 0 <= x < |mem| && x != a && x != q ==> m[x].size == mem[x].size
    ensures Tiled(m, h) && Start(h, q)
    ensures forall x :: Start(home, x) ==> Start(h, x)
  {
    assert InBlock(mem, a, q);
    forall u | u in h ensures Start(h, h[u]) && 1 <= h[u] && u < |m| && InBlock(m, h[u], u) {
      assert u in home && InBlock(mem, home[u], u);
    }
    forall x: nat, u: nat | Start(h, x) && InBlock(m, x, u) ensures u in h && h[u] == x {
      if x == q || x == a {
        assert InBlock(mem, a, u);
      } else {
        assert InBlock(mem, x, u);
      }
    }
  }

  /** A new region from sbrk, one block. */
  ghost function GrownHome(home: Tiling, a: nat, n: nat): (h: Tiling)
    ensures forall u :: u in h <==> u in home || a <= u < a + n
    ensures forall u :: u in h ==> h[u] == if a <= u < a + n then a else home[u]
  {
    if n == 0 then home else GrownHome(home, a, n - 1)[a + n - 1 := a]
  }

  lemma GrownTiled(mem: Memory, home: Tiling, a: nat, n: nat, m: Memory, h: Tiling)
    requires Tiled(mem, home) && 1 <= a && 0 < n && a + n <= |mem| == |m| && h == GrownHome(home, a, n)
    requires forall u :: u in home ==> u < a
    requires m == mem[a := m[a]] && m[a].size == n
    ensures Tiled(m, h) && Start(h, a)
    ensures forall x :: Start(home, x) ==> Start(h, x)
  {
    forall u | u in h ensures Start(h, h[u]) && 1 <= h[u] && u < |m| && InBlock(m, h[u], u) {
      if u in home { assert InBlock(mem, home[u], u); }
    }
    forall x: nat, u: nat | Start(h, x) && InBlock(m, x, u) ensures u in h && h[u] == x {
      if x != a { assert x in home && InBlock(mem, x, u); }
    }
  }

  // ---- freeing a block -------------------------------------------------------------------

  /** The blocks handed out and not given back. */
  ghost function Live(fl: seq<nat>, home: Tiling): set<nat> {
    set a | a in home && home[a] == a && a !in fl
  }

  /** Every live block keeps its size and its contents. */
  ghost predicate LiveKept(mem: Memory, m: Memory, home: Tiling, live: set<nat>) {
    |m| == |mem| && forall u :: u in home && home[u] in live && u < |mem| ==> m[u] == mem[u]
  }

  /** The block at list index `i` lies before the address of the next one, and never beyond it. */
  lemma FreeOrder(mem: Memory, fl: seq<nat>, home: Tiling, i: nat)
    requires HeapOk(mem, fl, home) && i + 1 < |fl|
    ensures fl[i] + mem[fl[i]].size <= fl[i + 1]
  {
    if 1 <= i { BlocksDisjoint(mem, home, fl[i], fl[i + 1]); }
  }

  lemma LinkedOk(mem: Memory, fl: seq<nat>, home: Tiling, i: nat, b: nat, m: Memory, l: seq<nat>)
    requires HeapOk(mem, fl, home) && Apart(mem, fl) && i < |fl| && b in Live(fl, home)
    requires fl[i] < b && (i + 1 < |fl| ==> b < fl[i + 1]) && b < |mem|
    requires m == Linked(mem, fl[i], b) && l == Inserted(fl, i, b)
    ensures HeapOk(m, l, home) && ApartBut(m, l, i, i + 2)
  {
    LinkedList(mem, fl, i, b);
    SameSizesTiled(mem, m, home);
    forall k | 1 <= k < |l| ensures Start(home, l[k]) {
      assert l[k] == if k <= i then fl[k] else if k == i + 1 then b else fl[k - 1];
    }
    forall k {:trigger Next(l, k)} | 0 <= k < |l| - 1 && !(i <= k < i + 2) ensures l[k] + m[l[k]].size < Next(l, k) {
      var k' := if k < i then k else k - 1;
      assert l[k] == fl[k'] && Next(l, k) == Next(fl, k');
    }
  }

  lemma JoinedApart(mem: Memory, fl: seq<nat>, i: nat, lo: nat, m: Memory, l: seq<nat>)
    requires ListOk(mem, fl) && ListOk(m, l) && i + 1 < |fl| && lo <= i && ApartBut(mem, fl, lo, i + 1)
    requires fl[i] + mem[fl[i]].size == fl[i + 1] && |m| == |mem|
    requires m == mem[fl[i] := Header(Next(fl, i + 1), mem[fl[i]].size + mem[fl[i + 1]].size)]
    requires OneMore(l, i + 1, fl[i + 1], fl)
    ensures ApartBut(m, l, lo, i)
  {
    forall k {:trigger Next(l, k)} | 0 <= k < |l| - 1 && !(lo <= k < i) ensures l[k] + m[l[k]].size < Next(l, k) {
      if k < i {
        assert fl[k] + mem[fl[k]].size < Next(fl, k);
        assert l[k] == fl[k] && l[k + 1] == fl[k + 1];
      } else {
        assert fl[k + 1] + mem[fl[k + 1]].size < Next(fl, k + 1);
        assert fl[k + 2] == l[k + 1];
        if k > i { assert fl[k + 1] == l[k]; } else { assert fl[k] == l[k]; }
      }
    }
  }

  lemma JoinedStarts(fl: seq<nat>, home: Tiling, i: nat, l: seq<nat>, h: Tiling)
    requires i + 1 < |fl| && l == Dropped(fl, i + 1)
    requires forall k :: 1 <= k < |fl| ==> Start(home, fl[k])
    requires forall i, j :: 0 <= i < j < |fl| ==> fl[i] < fl[j]
    requires forall x :: Start(home, x) && x != fl[i + 1] ==> Start(h, x)
    ensures forall k :: 1 <= k < |l| ==> Start(h, l[k])
  {
    forall k | 1 <= k < |l| ensures Start(h, l[k]) {
      assert l[k] == if k <= i then fl[k] else fl[k + 1];
    }
  }

  /** Joining the block at index `i` with the next one, which it touches. */
  lemma JoinedOk(mem: Memory, fl: seq<nat>, home: Tiling, i: nat, lo: nat, m: Memory, l: seq<nat>, h: Tiling)
    requires HeapOk(mem, fl, home) && 1 <= i && i + 1 < |fl| && lo <= i && ApartBut(mem, fl, lo, i + 1)
    requires fl[i] + mem[fl[i]].size == fl[i + 1] && mem[fl[i]].ptr < |mem|
    requires m == Joined(mem, fl[i]) && l == Dropped(fl, i + 1) && h == JoinedHome(home, fl[i], fl[i + 1])
    ensures HeapOk(m, l, h) && ApartBut(m, l, lo, i)
  {
    assert mem[fl[i]].ptr == Next(fl, i) && mem[fl[i + 1]].ptr == Next(fl, i + 1);
    assert OneMore(l, i + 1, fl[i + 1], fl);
    assert m == mem[fl[i] := Header(Next(fl, i + 1), mem[fl[i]].size + mem[fl[i + 1]].size)];
    assert Start(home, fl[i]) && Start(home, fl[i + 1]);
    hide JoinedHome, OneMore, Dropped, Tiled, ApartBut, Joined;
    JoinedListAt(mem, fl, i, m, l);
    JoinedTiled(mem, home, fl[i], fl[i + 1], m, h);
    JoinedApart(mem, fl, i, lo, m, l);
    JoinedStarts(fl, home, i, l, h);
  }

  lemma NotJoinedOk(mem: Memory, fl: seq<nat>, home: Tiling, i: nat, lo: nat)
    requires HeapOk(mem, fl, home) && i < |fl| && lo <= i && ApartBut(mem, fl, lo, i + 1)
    requires i + 1 < |fl| ==> fl[i] + mem[fl[i]].size != fl[i + 1]
    ensures ApartBut(mem, fl, lo, i)
  {
    if i + 1 < |fl| { FreeOrder(mem, fl, home, i); }
  }

  /** Joining moves no block in or out of the live ones. */
  lemma JoinedLive(fl: seq<nat>, home: Tiling, i: nat, l: seq<nat>, h: Tiling)
    requires 1 <= i && i + 1 < |fl| && fl[i] != fl[i + 1] && Start(home, fl[i]) && Start(home, fl[i + 1])
    requires l == Dropped(fl, i + 1) && h == JoinedHome(home, fl[i], fl[i + 1])
    requires forall i, j :: 0 <= i < j < |fl| ==> fl[i] < fl[j]
    ensures Live(l, h) == Live(fl, home)
    ensures forall u :: u in home && home[u] in Live(fl, home) ==> h[u] == home[u]
  {
    forall a ensures a in Live(l, h) <==> a in Live(fl, home) {
      assert fl == fl[..i + 1] + [fl[i + 1]] + fl[i + 2..];
    }
  }

  lemma LinkedLive(fl: seq<nat>, home: Tiling, i: nat, b: nat, l: seq<nat>)
    requires i < |fl| && l == Inserted(fl, i, b)
    ensures Live(l, home) == Live(fl, home) - {b}
  {
    forall a ensures a in l <==> a in fl || a == b {
      assert fl == fl[..i + 1] + fl[i + 1..];
    }
  }

  /** free's two coalescing steps, for a block `b` that belongs between `p` and the block after it. */
  function Freed(mem: Memory, p: nat, b: nat): Memory
    requires p < |mem| && b < |mem| && mem[p].ptr < |mem|
  {
    var nx := mem[p].ptr;
    var m := if b + mem[b].size == nx
             then mem[b := Header(mem[nx].ptr, mem[b].size + mem[nx].size)]
             else mem[b := Header(nx, mem[b].size)];
    if p + m[p].size == b then m[p := Header(m[b].ptr, m[p].size + m[b].size)] else m[p := Header(b, m[p].size)]
  }

  /** free as three list steps: link in, join with the upper neighbour, join with the lower one. */
  lemma FreedSteps(mem: Memory, p: nat, b: nat, m: Memory)
    requires p < |mem| && b < |mem| && mem[p].ptr < |mem| && p != b && mem[p].ptr != b
    requires b + mem[b].size == mem[p].ptr ==> mem[p].ptr != p
    requires m == Linked(mem, p, b)
    ensures b + mem[b].size != mem[p].ptr && p + mem[p].size != b ==> Freed(mem, p, b) == m
    ensures b + mem[b].size == mem[p].ptr && p + mem[p].size != b ==> Freed(mem, p, b) == Joined(m, b)
    ensures b + mem[b].size != mem[p].ptr && p + mem[p].size == b ==> Freed(mem, p, b) == Joined(m, p)
    ensures b + mem[b].size == mem[p].ptr && p + mem[p].size == b ==> Freed(mem, p, b) == Joined(Joined(m, b), p)
  {
  }

  /** What holds between free's steps: the heap is well formed but for perhaps one pair of
      touching blocks, and nothing has happened to the live blocks. */
  ghost predicate Mid(mem: Memory, home: Tiling, live: set<nat>, m: Memory, l: seq<nat>, h: Tiling, lo: nat, hi: nat) {
    && HeapOk(m, l, h) && ApartBut(m, l, lo, hi)
    && h.Keys == home.Keys && Live(l, h) == live
    && LiveKept(mem, m, home, live)
    && (forall u :: u in home && home[u] in live ==> h[u] == home[u])
  }

  /** Free blocks are not live, so writing a free block's header touches no live block. */
  lemma FreeNotLive(mem: Memory, home: Tiling, live: set<nat>, m: Memory, l: seq<nat>, h: Tiling, lo: nat, hi: nat,
                    i: nat, m': Memory)
    requires Mid(mem, home, live, m, l, h, lo, hi) && i < |l| && 1 <= i
    requires |m'| == |m| && m' == m[l[i] := m'[l[i]]]
    ensures LiveKept(mem, m', home, live)
  {
    forall u | u in home && home[u] in live && u < |mem| ensures m'[u] == mem[u] {
      assert Start(h, l[i]);
    }
  }

  lemma JoinFacts(m: Memory, l: seq<nat>, h: Tiling, i: nat, m': Memory, h': Tiling)
    requires HeapOk(m, l, h) && 1 <= i && i + 1 < |l| && m[l[i]].ptr < |m|
    requires m' == Joined(m, l[i]) && h' == JoinedHome(h, l[i], l[i + 1])
    ensures h'.Keys == h.Keys && Start(h, l[i]) && Start(h, l[i + 1]) && |m'| == |m| && m' == m[l[i] := m'[l[i]]]
    ensures l[i] != l[i + 1] && forall i, j :: 0 <= i < j < |l| ==> l[i] < l[j]
  {
  }

  /** The join step at list index `i`, taken when the two blocks touch. */
  lemma MidJoin(mem: Memory, home: Tiling, live: set<nat>, m: Memory, l: seq<nat>, h: Tiling, lo: nat, i: nat,
                m': Memory, l': seq<nat>, h': Tiling)
    requires 1 <= i && lo <= i && i + 1 < |l| && l[i] < |m| && m[l[i]].ptr < |m|
    requires Mid(mem, home, live, m, l, h, lo, i + 1)
    requires l[i] + m[l[i]].size == l[i + 1]
    requires m' == Joined(m, l[i]) && l' == Dropped(l, i + 1) && h' == JoinedHome(h, l[i], l[i + 1])
    ensures Mid(mem, home, live, m', l', h', lo, i)
  {
    hide Joined, JoinedHome, Dropped, ApartBut, ListOk, Tiled, Live, Next, Start;
    JoinFacts(m, l, h, i, m', h');
    JoinedOk(m, l, h, i, lo, m', l', h');
    JoinedLive(l, h, i, l', h');
    FreeNotLive(mem, home, live, m, l, h, lo, i + 1, i, m');
  }

  lemma MidSkip(mem: Memory, home: Tiling, live: set<nat>, m: Memory, l: seq<nat>, h: Tiling, lo: nat, i: nat)
    requires Mid(mem, home, live, m, l, h, lo, i + 1) && lo <= i < |l|
    requires i + 1 < |l| ==> l[i] + m[l[i]].size != l[i + 1]
    ensures Mid(mem, home, live, m, l, h, lo, i)
  {
    NotJoinedOk(m, l, h, i, lo);
  }

  lemma BaseAlone(mem: Memory, home: Tiling, live: set<nat>, m: Memory, l: seq<nat>, h: Tiling, lo: nat, hi: nat)
    requires Mid(mem, home, live, m, l, h, lo, hi) && 1 < |l| && l[0] < |m|
    ensures l[0] + m[l[0]].size != l[1]
  {
  }

  /** The join step as free takes it: only when the two blocks touch. */
  lemma MidStep(mem: Memory, home: Tiling, live: set<nat>, m: Memory, l: seq<nat>, h: Tiling, lo: nat, i: nat,
                m': Memory)
      returns (l': seq<nat>, h': Tiling)
    requires lo <= i < |l| && l[i] < |m| && m[l[i]].ptr < |m|
    requires m' == if i + 1 < |l| && l[i] + m[l[i]].size == l[i + 1] then Joined(m, l[i]) else m
    requires Mid(mem, home, live, m, l, h, lo, i + 1)
    ensures Mid(mem, home, live, m', l', h', lo, i)
    ensures i < |l'| && forall k :: 0 <= k <= i ==> l'[k] == l[k]
    ensures i + 1 < |l| && l[i] + m[l[i]].size != l[i + 1] ==> l' == l
  {
    hide Joined, JoinedHome, Mid;
    if i + 1 < |l| && l[i] + m[l[i]].size == l[i + 1] {
      if i == 0 { BaseAlone(mem, home, live, m, l, h, lo, i + 1); }
      l', h' := Dropped(l, i + 1), JoinedHome(h, l[i], l[i + 1]);
      MidJoin(mem, home, live, m, l, h, lo, i, m', l', h');
      return;
    }
    l', h' := l, h;
    MidSkip(mem, home, live, m, l, h, lo, i);
  }

  lemma MidLinked(mem: Memory, fl: seq<nat>, home: Tiling, i: nat, b: nat, live: set<nat>, m: Memory, l: seq<nat>)
    requires HeapOk(mem, fl, home) && Apart(mem, fl) && i < |fl| && b in Live(fl, home) && b < |mem|
    requires fl[i] < b && (i + 1 < |fl| ==> b < fl[i + 1])
    requires m == Linked(mem, fl[i], b) && l == Inserted(fl, i, b) && live == Live(fl, home) - {b}
    ensures Mid(mem, home, live, m, l, home, i, i + 2)
  {
    LinkedOk(mem, fl, home, i, b, m, l);
    LinkedLive(fl, home, i, b, l);
    forall u | u in home && home[u] in live && u < |mem| ensures m[u] == mem[u] {
      assert 1 <= i ==> Start(home, fl[i]);
    }
  }

  lemma MidDone(mem: Memory, home: Tiling, live: set<nat>, m: Memory, l: seq<nat>, h: Tiling, i: nat)
    requires Mid(mem, home, live, m, l, h, i, i)
    ensures HeapOk(m, l, h) && Apart(m, l) && h.Keys == home.Keys
    ensures Live(l, h) == live && LiveKept(mem, m, home, live)
  {
  }

  /** free's memory, and the list `l` after linking, in terms of the three steps. */
  lemma FreedIs(mem: Memory, fl: seq<nat>, home: Tiling, i: nat, b: nat, l: seq<nat>, m: Memory, m2: Memory, m3: Memory)
    requires HeapOk(mem, fl, home) && i < |fl| && b in Live(fl, home) && b < |mem| && l == Inserted(fl, i, b)
    requires fl[i] < b && (i + 1 < |fl| ==> b < fl[i + 1]) && mem[fl[i]].ptr < |mem|
    requires m == Linked(mem, fl[i], b)
    requires m2 == if b + mem[b].size == mem[fl[i]].ptr then Joined(m, b) else m
    requires m3 == if fl[i] + mem[fl[i]].size == b then Joined(m2, fl[i]) else m2
    ensures Freed(mem, fl[i], b) == m3 && |m3| == |m2| == |m| == |mem|
    ensures |l| == |fl| + 1 && l[i] == fl[i] && l[i + 1] == b
    ensures m[b].ptr < |m| && m[fl[i]].ptr == m2[fl[i]].ptr == b && m2[fl[i]].size == mem[fl[i]].size
    ensures m2 == if i + 2 < |l| && l[i + 1] + m[l[i + 1]].size == l[i + 2] then Joined(m, l[i + 1]) else m
    ensures mem[b].size <= m2[b].size
    ensures fl[i] + mem[fl[i]].size == b ==> mem[b].size <= m3[fl[i]].size
  {
    assert mem[fl[i]].ptr == Next(fl, i);
    FreedSteps(mem, fl[i], b, m);
  }

  /** free: a live block goes back to the list, and nothing else happens to live blocks. */
  lemma FreedOk(mem: Memory, fl: seq<nat>, home: Tiling, i: nat, b: nat, m': Memory) returns (l: seq<nat>, h: Tiling)
    requires i < |fl| && fl[i] < |mem| && mem[fl[i]].ptr < |mem| && b < |mem|
    requires fl[i] < b && (i + 1 < |fl| ==> b < fl[i + 1]) && m' == Freed(mem, fl[i], b)
    requires HeapOk(mem, fl, home) && Apart(mem, fl) && b in Live(fl, home)
    ensures HeapOk(m', l, h) && Apart(m', l) && h.Keys == home.Keys
    ensures Live(l, h) == Live(fl, home) - {b} && LiveKept(mem, m', home, Live(fl, home) - {b})
    ensures i < |l| && l[i] == fl[i] && |m'| == |mem|
    ensures var t := if fl[i] + mem[fl[i]].size == b then i else i + 1;
            t < |l| && l[t] < |mem| && m'[l[t]].size >= mem[b].size
  {
    hide Freed, Live, Mid, HeapOk, Apart, Inserted;
    var p, live := fl[i], Live(fl, home) - {b};
    var m := Linked(mem, p, b);
    var l1 := Inserted(fl, i, b);
    var m2 := if b + mem[b].size == mem[p].ptr then Joined(m, b) else m;
    var m3 := if p + mem[p].size == b then Joined(m2, p) else m2;
    MidLinked(mem, fl, home, i, b, live, m, l1);
    FreedIs(mem, fl, home, i, b, l1, m, m2, m3);
    var l2, h2 := MidStep(mem, home, live, m, l1, home, i, i + 1, m2);
    l, h := MidStep(mem, home, live, m2, l2, h2, i, i, m3);
    MidDone(mem, home, live, m3, l, h, i);
  }

  // ---- taking a block --------------------------------------------------------------------

  /** The outcome of taking or adding a block `b`: one more live block, the others as they were. */
  ghost predicate Gained(mem: Memory, fl: seq<nat>, home: Tiling, m: Memory, l: seq<nat>, h: Tiling, b: nat) {
    && HeapOk(m, l, h) && Apart(m, l)
    && b !in Live(fl, home) && Live(l, h) == Live(fl, home) + {b}
    && LiveKept(mem, m, home, Live(fl, home))
    && (forall u :: u in home && home[u] in Live(fl, home) ==> u in h && h[u] == home[u])
  }

  lemma DroppedApart(mem: Memory, fl: seq<nat>, i: nat, m: Memory, l: seq<nat>)
    requires ListOk(mem, fl) && ListOk(m, l) && Apart(mem, fl) && i + 1 < |fl| && OneMore(l, i + 1, fl[i + 1], fl)
    requires |m| == |mem| && forall a :: 0 <= a < |mem| ==> m[a].size == mem[a].size
    ensures Apart(m, l)
  {
    forall k {:trigger Next(l, k)} | 0 <= k < |l| - 1 ensures l[k] + m[l[k]].size < Next(l, k) {
      assert fl[k] + mem[fl[k]].size < Next(fl, k);
      assert fl[k + 1] + mem[fl[k + 1]].size < Next(fl, k + 1);
      if k > i { assert fl[k + 1] == l[k]; } else { assert fl[k] == l[k]; }
      if k >= i { assert fl[k + 2] == l[k + 1]; } else { assert fl[k + 1] == l[k + 1]; }
    }
  }

  lemma DroppedLive(fl: seq<nat>, home: Tiling, i: nat, l: seq<nat>)
    requires i + 1 < |fl| && l == Dropped(fl, i + 1) && Start(home, fl[i + 1])
    requires forall i, j :: 0 <= i < j < |fl| ==> fl[i] < fl[j]
    requires forall k :: 1 <= k < |fl| ==> Start(home, fl[k])
    ensures fl[i + 1] !in Live(fl, home) && Live(l, home) == Live(fl, home) + {fl[i + 1]}
    ensures forall k :: 1 <= k < |l| ==> Start(home, l[k])
  {
    assert fl == fl[..i + 1] + [fl[i + 1]] + fl[i + 2..];
    forall k | 1 <= k < |l| ensures Start(home, l[k]) {
      assert l[k] == if k <= i then fl[k] else fl[k + 1];
    }
  }

  /** malloc with an exact fit: the block leaves the list. */
  lemma TakenWhole(mem: Memory, fl: seq<nat>, home: Tiling, i: nat, m: Memory, l: seq<nat>)
    requires HeapOk(mem, fl, home) && Apart(mem, fl) && i + 1 < |fl|
    requires m == mem[fl[i] := Header(mem[fl[i + 1]].ptr, mem[fl[i]].size)] && l == Dropped(fl, i + 1)
    ensures Gained(mem, fl, home, m, l, home, fl[i + 1])
  {
    assert mem[fl[i + 1]].ptr == Next(fl, i + 1);
    assert Start(home, fl[i + 1]) && (1 <= i ==> Start(home, fl[i]));
    assert OneMore(l, i + 1, fl[i + 1], fl);
    assert LiveKept(mem, m, home, Live(fl, home));
    hide Dropped, OneMore, ApartBut, Next, Live, Start, LiveKept, Tiled;
    JoinedListAt(mem, fl, i, m, l);
    SameSizesTiled(mem, m, home);
    DroppedApart(mem, fl, i, m, l);
    DroppedLive(fl, home, i, l);
  }

  /** malloc from a larger block: its tail of `n` units becomes the new block. */
  lemma TakenTail(mem: Memory, fl: seq<nat>, home: Tiling, i: nat, n: nat, q: nat, m: Memory, h: Tiling)
    requires HeapOk(mem, fl, home) && Apart(mem, fl) && 1 <= i < |fl|
    requires 0 < n < mem[fl[i]].size && q == fl[i] + mem[fl[i]].size - n && q < |mem|
    requires m == mem[fl[i] := Header(mem[fl[i]].ptr, mem[fl[i]].size - n)][q := Header(mem[q].ptr, n)]
    requires h == SplitHome(home, fl[i], q)
    ensures Gained(mem, fl, home, m, fl, h, q)
  {
    hide Live, LiveKept;
    TailList(mem, fl, home, i, n, q, m);
    assert InBlock(mem, fl[i], q);
    SplitTiled(mem, home, fl[i], n, q, m, h);
    TailLive(mem, fl, home, i, n, q, m, h);
  }

  /** The list is the same, and the shortened block still touches none. */
  lemma TailList(mem: Memory, fl: seq<nat>, home: Tiling, i: nat, n: nat, q: nat, m: Memory)
    requires HeapOk(mem, fl, home) && Apart(mem, fl) && 1 <= i < |fl|
    requires 0 < n < mem[fl[i]].size && q == fl[i] + mem[fl[i]].size - n && q < |mem|
    requires m == mem[fl[i] := Header(mem[fl[i]].ptr, mem[fl[i]].size - n)][q := Header(mem[q].ptr, n)]
    ensures q !in fl && !Start(home, q) && ListOk(m, fl) && Apart(m, fl) && Start(home, fl[i])
  {
    assert InBlock(mem, fl[i], q) && Start(home, fl[i]);
    assert !Start(home, q);
    assert q !in fl && q != BASE;
    hide Tiled;
    forall k | 0 <= k < |fl| ensures fl[k] < |m| && m[fl[k]].ptr == mem[fl[k]].ptr
      && m[fl[k]].size <= mem[fl[k]].size {}
    forall k {:trigger Next(fl, k)} | 0 <= k < |fl| - 1 ensures fl[k] + m[fl[k]].size < Next(fl, k) {
      assert fl[k] + mem[fl[k]].size < Next(fl, k);
    }
  }

  lemma TailLive(mem: Memory, fl: seq<nat>, home: Tiling, i: nat, n: nat, q: nat, m: Memory, h: Tiling)
    requires 1 <= i < |fl| && fl[i] < |mem| && Start(home, fl[i]) && q < |mem| && q !in fl && !Start(home, q)
    requires |m| == |mem| && forall x :: 0 <= x < |mem| && x != fl[i] && x != q ==> m[x] == mem[x]
    requires h == SplitHome(home, fl[i], q) && q in home && home[q] == fl[i] && fl[i] < q
    ensures q !in Live(fl, home) && Live(fl, h) == Live(fl, home) + {q} && LiveKept(mem, m, home, Live(fl, home))
    ensures forall u :: u in home && home[u] in Live(fl, home) ==> u in h && h[u] == home[u]
  {
  }

  /** A region fresh from sbrk is a live block until morecore frees it. */
  lemma GrownOk(mem: Memory, fl: seq<nat>, home: Tiling, a: nat, n: nat, m: Memory, h: Tiling)
    requires HeapOk(mem, fl, home) && Apart(mem, fl)
    requires 1 <= a && 0 < n && a + n <= |mem| == |m| && h == GrownHome(home, a, n)
    requires forall u :: u in home ==> u < a
    requires m == mem[a := m[a]] && m[a].size == n
    ensures Gained(mem, fl, home, m, fl, h, a)
  {
    hide Live, LiveKept;
    GrownList(mem, fl, home, a, m);
    GrownTiled(mem, home, a, n, m, h);
    GrownLive(mem, fl, home, a, n, m, h);
  }

  lemma GrownList(mem: Memory, fl: seq<nat>, home: Tiling, a: nat, m: Memory)
    requires HeapOk(mem, fl, home) && Apart(mem, fl) && 1 <= a < |mem| == |m| && m == mem[a := m[a]]
    requires forall u :: u in home ==> u < a
    ensures a !in fl && ListOk(m, fl) && Apart(m, fl)
  {
    forall k | 0 <= k < |fl| ensures fl[k] < a {
      assert k >= 1 ==> Start(home, fl[k]);
    }
    hide Tiled;
    forall k {:trigger Next(fl, k)} | 0 <= k < |fl| - 1 ensures fl[k] + m[fl[k]].size < Next(fl, k) {
      assert fl[k] + mem[fl[k]].size < Next(fl, k);
    }
  }

  lemma GrownLive(mem: Memory, fl: seq<nat>, home: Tiling, a: nat, n: nat, m: Memory, h: Tiling)
    requires a < |mem| == |m| && m == mem[a := m[a]] && a !in fl && 0 < n && h == GrownHome(home, a, n)
    requires forall u :: u in home ==> u < a
    ensures a !in Live(fl, home) && Live(fl, h) == Live(fl, home) + {a} && LiveKept(mem, m, home, Live(fl, home))
    ensures forall u :: u in home && home[u] in Live(fl, home) ==> u in h && h[u] == home[u]
  {
    hide GrownHome;
    forall x ensures x in Live(fl, h) <==> x in Live(fl, home) + {a} {}
  }
}
