/** bio.c: the buffer cache and its doubly linked list of buffers in order of use, over the
    synchronous disk of memide.c.  The buffers are numbered 0..n-1; number n is the list
    head of bcache. */
module BufferCache {
  import opened LogDisk

  const ROOTDEV: nat := 1

  datatype Buf = Buf(
    dev: nat, blockno: nat, valid: bool, dirty: bool, locked: bool, refcnt: nat, data: Block,
    prev: nat, next: nat)

  const Blank := Buf(0, 0, false, false, false, 0, [], 0, 0)

  predicate Caches(b: Buf, dev: nat, blockno: nat) { b.dev == dev && b.blockno == blockno }

  predicate Unused(b: Buf) { b.refcnt == 0 && !b.dirty }

  // ---- the list ---------------------------------------------------------------------

  /** Node at place `i` of the cycle head, l[0], l[1], ..., head. */
  function Place(n: nat, l: seq<nat>, i: nat): nat {
    if 1 <= i <= |l| then l[i - 1] else n
  }

  /** `next` and `prev` run through the head and the nodes of `l`, each once. */
  ghost predicate Links(bufs: seq<Buf>, n: nat, l: seq<nat>) {
    && |bufs| == n + 1
    && Distinct(l) && (forall i :: 0 <= i < |l| ==> l[i] < n)
    && (forall i :: 0 <= i <= |l| ==> bufs[Place(n, l, i)].next == Place(n, l, i + 1))
    && (forall i :: 0 <= i <= |l| ==> bufs[Place(n, l, i + 1)].prev == Place(n, l, i))
  }

  function Without(l: seq<nat>, p: nat): seq<nat>
    requires p < |l|
  {
    l[..p] + l[p + 1..]
  }

  /** The two assignments that take node `b` out. */
  function Unlinked(bufs: seq<Buf>, b: nat): seq<Buf>
    requires b < |bufs| && bufs[b].next < |bufs| && bufs[b].prev < |bufs|
  {
    var s := bufs[bufs[b].next := bufs[bufs[b].next].(prev := bufs[b].prev)];
    s[s[b].prev := s[s[b].prev].(next := s[b].next)]
  }

  /** The four assignments that put node `b` behind the head. */
  function Pushed(bufs: seq<Buf>, n: nat, b: nat): seq<Buf>
    requires b < n && |bufs| == n + 1 && bufs[n].next <= n
  {
    var s := bufs[b := bufs[b].(next := bufs[n].next, prev := n)];
    var t := s[s[n].next := s[s[n].next].(prev := b)];
    t[n := t[n].(next := b)]
  }

  lemma UnlinkedLinks(bufs: seq<Buf>, n: nat, l: seq<nat>, p: nat)
    requires Links(bufs, n, l) && p < |l|
    ensures bufs[l[p]].next <= n && bufs[l[p]].prev <= n
    ensures Links(Unlinked(bufs, l[p]), n, Without(l, p))
  {
    var b, m := l[p], Without(l, p);
    assert Place(n, l, p + 1) == b;
    assert bufs[b].next == Place(n, l, p + 2) && bufs[b].prev == Place(n, l, p);
    var s := Unlinked(bufs, b);
    forall i | 0 <= i <= |m|
      ensures s[Place(n, m, i)].next == Place(n, m, i + 1) && s[Place(n, m, i + 1)].prev == Place(n, m, i)
    {
      UnlinkedAt(bufs, n, l, p, i, s);
    }
  }

  lemma UnlinkedAt(bufs: seq<Buf>, n: nat, l: seq<nat>, p: nat, i: nat, s: seq<Buf>)
    requires Links(bufs, n, l) && p < |l| && i <= |l| - 1 && bufs[l[p]].next <= n && bufs[l[p]].prev <= n
    requires s == Unlinked(bufs, l[p])
    ensures var m := Without(l, p);
      && Place(n, m, i) < |s| && Place(n, m, i + 1) < |s|
      && s[Place(n, m, i)].next == Place(n, m, i + 1) && s[Place(n, m, i + 1)].prev == Place(n, m, i)
  {
    var m, j := Without(l, p), if i <= p then i else i + 1;
    assert Place(n, l, p + 1) == l[p];
    assert bufs[l[p]].next == Place(n, l, p + 2) && bufs[l[p]].prev == Place(n, l, p);
    assert Place(n, m, i) == Place(n, l, j);
    assert Place(n, m, i + 1) == Place(n, l, if i < p then i + 1 else i + 2);
    assert bufs[Place(n, l, j)].next == Place(n, l, j + 1) && bufs[Place(n, l, j + 1)].prev == Place(n, l, j);
  }

  lemma PushedLinks(bufs: seq<Buf>, n: nat, l: seq<nat>, b: nat)
    requires Links(bufs, n, l) && b < n && b !in l
    ensures bufs[n].next <= n
    ensures Links(Pushed(bufs, n, b), n, [b] + l)
  {
    var m := [b] + l;
    assert Place(n, l, 0) == n;
    assert bufs[n].next == Place(n, l, 1);
    var s := Pushed(bufs, n, b);
    assert forall i :: 0 <= i < |l| ==> m[i + 1] == l[i];
    forall i | 0 <= i <= |m|
      ensures s[Place(n, m, i)].next == Place(n, m, i + 1) && s[Place(n, m, i + 1)].prev == Place(n, m, i)
    {
      PushedAt(bufs, n, l, b, i, s);
    }
  }

  lemma PushedAt(bufs: seq<Buf>, n: nat, l: seq<nat>, b: nat, i: nat, s: seq<Buf>)
    requires Links(bufs, n, l) && b < n && b !in l && i <= |l| + 1 && bufs[n].next <= n && s == Pushed(bufs, n, b)
    ensures var m := [b] + l;
      && Place(n, m, i) < |s| && Place(n, m, i + 1) < |s|
      && s[Place(n, m, i)].next == Place(n, m, i + 1) && s[Place(n, m, i + 1)].prev == Place(n, m, i)
  {
    var m := [b] + l;
    assert Place(n, l, 0) == n && bufs[n].next == Place(n, l, 1);
    assert i >= 2 ==> Place(n, m, i) == Place(n, l, i - 1) && Place(n, m, i + 1) == Place(n, l, i);
    if i >= 2 {
      assert bufs[Place(n, l, i - 1)].next == Place(n, l, i) && bufs[Place(n, l, i)].prev == Place(n, l, i - 1);
    }
    assert i == 1 ==> Place(n, m, i + 1) == Place(n, l, 1);
  }

  // ---- contents ---------------------------------------------------------------------

  /** The first of the buffers 0..n-1 for the block, or n. */
  function Lookup(bufs: seq<Buf>, n: nat, dev: nat, blockno: nat): (i: nat)
    requires n <= |bufs|
    ensures i <= n
    ensures i < n ==> Caches(bufs[i], dev, blockno)
    ensures forall j :: 0 <= j < i ==> !Caches(bufs[j], dev, blockno)
    decreases n
  {
    if n == 0 then 0
    else var i := Lookup(bufs, n - 1, dev, blockno);
      if i < n - 1 then i else if Caches(bufs[n - 1], dev, blockno) then n - 1 else n
  }

  /** What a reader of the block sees: the buffer if it holds the block, else the disk. */
  function View(bufs: seq<Buf>, n: nat, disk: seq<Block>, blockno: nat): Block
    requires n <= |bufs| && blockno < |disk|
  {
    var i := Lookup(bufs, n, ROOTDEV, blockno);
    if i < n && bufs[i].valid then bufs[i].data else disk[blockno]
  }

  /** No block is cached twice; a buffer nobody holds and nobody pinned agrees with the
      disk; buffers for the disk name blocks it has. */
  ghost predicate Coherent(bufs: seq<Buf>, n: nat, disk: seq<Block>) {
    && n <= |bufs|
    && (forall i, j :: 0 <= i < j < n && bufs[i].dev == ROOTDEV ==> !Caches(bufs[j], ROOTDEV, bufs[i].blockno))
    && (forall i :: 0 <= i < n ==> bufs[i].dev == ROOTDEV || (bufs[i].dev == 0 && Unused(bufs[i]) && !bufs[i].valid))
    && (forall i :: 0 <= i < n && bufs[i].dev == ROOTDEV ==> bufs[i].blockno < |disk|)
    && (forall i :: 0 <= i < n && bufs[i].dirty ==> bufs[i].valid)
    && (forall i :: 0 <= i < n && bufs[i].locked ==> bufs[i].refcnt > 0)
    && (forall i :: 0 <= i < n && bufs[i].valid && !bufs[i].dirty && !bufs[i].locked ==>
          bufs[i].data == disk[bufs[i].blockno])
  }

  /** Only the links of the buffers differ. */
  ghost predicate SameBuffers(s: seq<Buf>, t: seq<Buf>) {
    |s| == |t| && forall i :: 0 <= i < |s| ==> s[i].(prev := t[i].prev, next := t[i].next) == t[i]
  }

  lemma UnlinkedSame(bufs: seq<Buf>, b: nat)
    requires b < |bufs| && bufs[b].next < |bufs| && bufs[b].prev < |bufs|
    ensures SameBuffers(Unlinked(bufs, b), bufs)
  {
  }

  lemma PushedSame(bufs: seq<Buf>, n: nat, b: nat)
    requires b < n && |bufs| == n + 1 && bufs[n].next <= n
    ensures SameBuffers(Pushed(bufs, n, b), bufs)
  {
    var s := bufs[b := bufs[b].(next := bufs[n].next, prev := n)];
    Relinked(bufs, b, bufs[n].next, n);
    var x := s[n].next;
    var t := s[x := s[x].(prev := b)];
    Relinked(s, x, s[x].next, b);
    SameTrans(t, s, bufs);
    Relinked(t, n, b, t[n].prev);
    SameTrans(t[n := t[n].(next := b)], t, bufs);
  }

  ghost predicate AllBlank(bufs: seq<Buf>) {
    forall i :: 0 <= i < |bufs| ==> bufs[i].(prev := 0, next := 0) == Blank
  }

  lemma NoneLinked(bufs: seq<Buf>, n: nat)
    requires |bufs| == n + 1 && bufs[n] == Blank.(prev := n, next := n)
    requires forall i :: 0 <= i < n ==> bufs[i] == Blank
    ensures Links(bufs, n, []) && AllBlank(bufs)
  {
  }

  lemma PushedBlank(bufs: seq<Buf>, n: nat, b: nat)
    requires b < n && |bufs| == n + 1 && bufs[n].next <= n && AllBlank(bufs)
    ensures AllBlank(Pushed(bufs, n, b))
  {
    PushedSame(bufs, n, b);
    var s := Pushed(bufs, n, b);
    forall i | 0 <= i < |s| ensures s[i].(prev := 0, next := 0) == Blank {
      assert s[i].(prev := bufs[i].prev, next := bufs[i].next) == bufs[i];
    }
  }

  lemma BlankCache(bufs: seq<Buf>, n: nat, lru: seq<nat>, disk: seq<Block>)
    requires |bufs| == n + 1 && AllBlank(bufs) && |lru| == n && forall i :: 0 <= i < n ==> lru[i] == n - 1 - i
    ensures Coherent(bufs, n, disk) && forall i :: 0 <= i < n ==> i in lru
    ensures forall i :: 0 <= i < n ==> Unused(bufs[i]) && !bufs[i].valid && !bufs[i].locked
  {
    forall i | 0 <= i < n ensures i in lru { assert lru[n - 1 - i] == i; }
    forall i | 0 <= i < n ensures bufs[i].(prev := 0, next := 0) == Blank {}
  }

  lemma Relinked(bufs: seq<Buf>, i: nat, next: nat, prev: nat)
    requires i < |bufs|
    ensures SameBuffers(bufs[i := bufs[i].(next := next, prev := prev)], bufs)
  {
  }

  lemma SameTrans(s: seq<Buf>, t: seq<Buf>, u: seq<Buf>)
    requires SameBuffers(s, t) && SameBuffers(t, u)
    ensures SameBuffers(s, u)
  {
    forall i | 0 <= i < |s| ensures s[i].(prev := u[i].prev, next := u[i].next) == u[i] {
      assert s[i].(prev := t[i].prev, next := t[i].next) == t[i];
    }
  }

  lemma {:induction false} SameLookup(s: seq<Buf>, t: seq<Buf>, n: nat, dev: nat, blockno: nat)
    requires n <= |s| == |t| && forall i :: 0 <= i < n ==> s[i].dev == t[i].dev && s[i].blockno == t[i].blockno
    ensures Lookup(s, n, dev, blockno) == Lookup(t, n, dev, blockno)
  {
    if n > 0 { SameLookup(s, t, n - 1, dev, blockno); }
  }

  lemma LookupIs(bufs: seq<Buf>, n: nat, disk: seq<Block>, i: nat)
    requires Coherent(bufs, n, disk) && i < n && bufs[i].dev == ROOTDEV
    ensures Lookup(bufs, n, ROOTDEV, bufs[i].blockno) == i
  {
    var j := Lookup(bufs, n, ROOTDEV, bufs[i].blockno);
    assert j < n;
  }

  /** Buffer `i` given to block `x`, which no buffer caches. */
  function Recycled(b: Buf, x: nat): Buf {
    b.(dev := ROOTDEV, blockno := x, valid := false, dirty := false, refcnt := 1, locked := true)
  }

  lemma RecycleCoherent(bufs: seq<Buf>, n: nat, disk: seq<Block>, i: nat, x: nat)
    requires Coherent(bufs, n, disk) && i < n && Unused(bufs[i]) && x < |disk|
    requires Lookup(bufs, n, ROOTDEV, x) == n
    ensures Coherent(bufs[i := Recycled(bufs[i], x)], n, disk)
  {
  }

  lemma RecycleKeepsView(bufs: seq<Buf>, n: nat, disk: seq<Block>, i: nat, x: nat, y: nat)
    requires Coherent(bufs, n, disk) && i < n && Unused(bufs[i]) && x < |disk| && y < |disk|
    requires Lookup(bufs, n, ROOTDEV, x) == n
    ensures View(bufs[i := Recycled(bufs[i], x)], n, disk, y) == View(bufs, n, disk, y)
  {
    var t := bufs[i := Recycled(bufs[i], x)];
    RecycleCoherent(bufs, n, disk, i, x);
    var k, k' := Lookup(bufs, n, ROOTDEV, y), Lookup(t, n, ROOTDEV, y);
    if k' < n && k' != i { LookupIs(bufs, n, disk, k'); }
    if k < n && k != i { LookupIs(t, n, disk, k); }
    if k == i { assert k' == n || k' == i; }
  }

  /** A change of one buffer that keeps its block is seen by readers of that block only. */
  lemma UpdateView(bufs: seq<Buf>, n: nat, disk: seq<Block>, i: nat, c: Buf, y: nat)
    requires Coherent(bufs, n, disk) && i < n && y < |disk|
    requires bufs[i].dev == c.dev == ROOTDEV && bufs[i].blockno == c.blockno
    ensures View(bufs[i := c], n, disk, y) ==
            if y != c.blockno then View(bufs, n, disk, y) else if c.valid then c.data else disk[y]
  {
    SameLookup(bufs, bufs[i := c], n, ROOTDEV, y);
    LookupIs(bufs, n, disk, i);
  }

  /** The blocks pinned by B_DIRTY. */
  ghost function Pinned(bufs: seq<Buf>, n: nat): set<nat>
    requires n <= |bufs|
  {
    set i | 0 <= i < n && bufs[i].dirty :: bufs[i].blockno
  }

  lemma RelabelLinks(bufs: seq<Buf>, n: nat, l: seq<nat>, b: nat, c: Buf)
    requires Links(bufs, n, l) && b < n && c.prev == bufs[b].prev && c.next == bufs[b].next
    ensures Links(bufs[b := c], n, l)
  {
  }

  /** `l` is a permutation of the buffers. */
  ghost predicate Complete(n: nat, l: seq<nat>) {
    |l| == n && forall i :: 0 <= i < n ==> i in l
  }

  lemma NoneCached(bufs: seq<Buf>, n: nat, l: seq<nat>, blockno: nat)
    requires Links(bufs, n, l) && Complete(n, l)
    requires forall q :: 0 <= q < n ==> !Caches(bufs[l[q]], ROOTDEV, blockno)
    ensures Lookup(bufs, n, ROOTDEV, blockno) == n
  {
    var i := Lookup(bufs, n, ROOTDEV, blockno);
    assert i < n ==> i in l;
  }

  lemma NoneUnused(bufs: seq<Buf>, n: nat, l: seq<nat>)
    requires Links(bufs, n, l) && Complete(n, l)
    requires forall q :: 0 <= q < n ==> !Unused(bufs[l[q]])
    ensures forall i :: 0 <= i < n ==> !Unused(bufs[i])
  {
    forall i | 0 <= i < n ensures !Unused(bufs[i]) { assert i in l; }
  }

  lemma FrontComplete(n: nat, l: seq<nat>, p: nat)
    requires Complete(n, l) && p < |l|
    ensures Complete(n, [l[p]] + Without(l, p))
  {
    var m := [l[p]] + Without(l, p);
    forall i | 0 <= i < n ensures i in m {
      assert i in l;
      var q :| 0 <= q < |l| && l[q] == i;
      if q < p { assert m[q + 1] == i; } else if q > p { assert m[q] == i; } else { assert m[0] == i; }
    }
  }

  lemma MoveToFront(bufs: seq<Buf>, n: nat, l: seq<nat>, p: nat)
    requires Links(bufs, n, l) && p < |l|
    ensures bufs[l[p]].next <= n && bufs[l[p]].prev <= n
    ensures Unlinked(bufs, l[p])[n].next <= n
    ensures Links(Pushed(Unlinked(bufs, l[p]), n, l[p]), n, [l[p]] + Without(l, p))
    ensures SameBuffers(Pushed(Unlinked(bufs, l[p]), n, l[p]), bufs)
  {
    UnlinkedLinks(bufs, n, l, p);
    UnlinkedSame(bufs, l[p]);
    var s := Unlinked(bufs, l[p]);
    PushedLinks(s, n, Without(l, p), l[p]);
    PushedSame(s, n, l[p]);
    SameTrans(Pushed(s, n, l[p]), s, bufs);
  }

  /** Links do not matter to readers. */
  lemma SameContents(s: seq<Buf>, t: seq<Buf>, n: nat, disk: seq<Block>)
    requires SameBuffers(s, t) && Coherent(t, n, disk)
    ensures Coherent(s, n, disk)
    ensures forall y :: 0 <= y < |disk| ==> View(s, n, disk, y) == View(t, n, disk, y)
  {
    forall y | 0 <= y < |disk| ensures View(s, n, disk, y) == View(t, n, disk, y) {
      SameLookup(s, t, n, ROOTDEV, y);
    }
  }

  /** The same both ways. */
  lemma SameSides(s: seq<Buf>, t: seq<Buf>, n: nat, disk: seq<Block>)
    requires SameBuffers(s, t) && n <= |t|
    ensures Coherent(s, n, disk) <==> Coherent(t, n, disk)
    ensures forall y :: 0 <= y < |disk| ==> View(s, n, disk, y) == View(t, n, disk, y)
  {
    forall i | 0 <= i < |s| ensures t[i].(prev := s[i].prev, next := s[i].next) == s[i] {
      assert s[i].(prev := t[i].prev, next := t[i].next) == t[i];
    }
    assert SameBuffers(t, s);
    if Coherent(t, n, disk) { SameContents(s, t, n, disk); }
    if Coherent(s, n, disk) { SameContents(t, s, n, disk); }
    forall y | 0 <= y < |disk| ensures View(s, n, disk, y) == View(t, n, disk, y) { SameLookup(s, t, n, ROOTDEV, y); }
  }

  /** A buffer let go must agree with the disk or be pinned. */
  lemma UnlockedCoherent(bufs: seq<Buf>, n: nat, disk: seq<Block>, b: nat, c: Buf)
    requires Coherent(bufs, n, disk) && b < n && bufs[b].dev == ROOTDEV && bufs[b].valid && bufs[b].locked
    requires c == bufs[b].(locked := false, refcnt := bufs[b].refcnt - 1)
    ensures Coherent(bufs[b := c], n, disk) <==> bufs[b].dirty || bufs[b].data == disk[bufs[b].blockno]
  {
    var t := bufs[b := c];
    if bufs[b].dirty || bufs[b].data == disk[bufs[b].blockno] {
      UpdateCoherent(bufs, n, disk, b, c, disk[c.blockno]);
      assert disk[c.blockno := disk[c.blockno]] == disk;
    } else {
      assert t[b].valid && !t[b].dirty && !t[b].locked && t[b].data != disk[t[b].blockno];
    }
  }

  lemma SamePinned(s: seq<Buf>, t: seq<Buf>, n: nat)
    requires n <= |s| == |t|
    requires forall i :: 0 <= i < n ==> s[i].dirty == t[i].dirty && (s[i].dirty ==> s[i].blockno == t[i].blockno)
    ensures Pinned(s, n) == Pinned(t, n)
  {
    forall x ensures x in Pinned(s, n) <==> x in Pinned(t, n) {
      if x in Pinned(s, n) {
        var i :| 0 <= i < n && s[i].dirty && s[i].blockno == x;
        assert t[i].blockno in Pinned(t, n);
      }
      if x in Pinned(t, n) {
        var i :| 0 <= i < n && t[i].dirty && t[i].blockno == x;
        assert s[i].blockno in Pinned(s, n);
      }
    }
  }

  lemma PinOne(bufs: seq<Buf>, n: nat, disk: seq<Block>, b: nat, c: Buf)
    requires Coherent(bufs, n, disk) && b < n && bufs[b].dev == ROOTDEV && c.blockno == bufs[b].blockno
    ensures Pinned(bufs[b := c], n) ==
            if c.dirty then Pinned(bufs, n) + {c.blockno} else Pinned(bufs, n) - {c.blockno}
  {
    var t := bufs[b := c];
    forall x ensures x in Pinned(t, n) <==> (if x == c.blockno then c.dirty else x in Pinned(bufs, n)) {
      if x in Pinned(t, n) {
        var i :| 0 <= i < n && t[i].dirty && t[i].blockno == x;
        if i != b { assert bufs[i].blockno in Pinned(bufs, n); }
      }
      if x in Pinned(bufs, n) && x != c.blockno {
        var i :| 0 <= i < n && bufs[i].dirty && bufs[i].blockno == x;
        assert t[i].blockno in Pinned(t, n);
      }
      if x == c.blockno && c.dirty { assert t[b].blockno in Pinned(t, n); }
    }
  }

  datatype BlockWrite = BlockWrite(blockno: nat, data: Block)

  /** A disk after a list of block writes. */
  function Written(d: seq<Block>, ws: seq<BlockWrite>): (e: seq<Block>)
    ensures |e| == |d|
  {
    if ws == [] then d
    else
      var e, w := Written(d, ws[..|ws| - 1]), ws[|ws| - 1];
      if w.blockno < |e| then e[w.blockno := w.data] else e
  }

  /** A change of one buffer, and of its block on disk, keeps the cache coherent. */
  lemma UpdateCoherent(bufs: seq<Buf>, n: nat, disk: seq<Block>, i: nat, c: Buf, data: Block)
    requires Coherent(bufs, n, disk) && i < n && bufs[i].dev == c.dev == ROOTDEV && bufs[i].blockno == c.blockno
    requires (c.dirty ==> c.valid) && (c.locked ==> c.refcnt > 0)
    requires c.valid && !c.dirty && !c.locked ==> c.data == data
    ensures Coherent(bufs[i := c], n, disk[c.blockno := data])
  {
  }

  lemma WriteView(bufs: seq<Buf>, n: nat, disk: seq<Block>, i: nat, c: Buf, y: nat)
    requires Coherent(bufs, n, disk) && i < n && bufs[i].dev == ROOTDEV && bufs[i].valid && y < |disk|
    requires c == bufs[i].(dirty := c.dirty)
    ensures View(bufs[i := c], n, disk[c.blockno := c.data], y) == View(bufs, n, disk, y)
  {
    SameLookup(bufs, bufs[i := c], n, ROOTDEV, y);
    LookupIs(bufs, n, disk, i);
  }

  lemma WrittenOne(d: seq<Block>, ws: seq<BlockWrite>, w: BlockWrite)
    requires w.blockno < |d|
    ensures Written(d, ws + [w]) == Written(d, ws)[w.blockno := w.data]
  {
    assert (ws + [w])[..|ws|] == ws;
  }

  /** Pinned blocks have one buffer each. */
  lemma {:induction false} PinnedCount(bufs: seq<Buf>, n: nat, disk: seq<Block>, k: nat)
    requires Coherent(bufs, n, disk) && k <= n
    ensures |Pinned(bufs, k)| <= k
    ensures |Pinned(bufs, k)| == k <==> forall i :: 0 <= i < k ==> bufs[i].dirty
  {
    if k > 0 {
      PinnedCount(bufs, n, disk, k - 1);
      PinnedStep(bufs, n, disk, k - 1);
    }
  }

  lemma PinnedStep(bufs: seq<Buf>, n: nat, disk: seq<Block>, k: nat)
    requires Coherent(bufs, n, disk) && k < n
    ensures |Pinned(bufs, k + 1)| == |Pinned(bufs, k)| + if bufs[k].dirty then 1 else 0
  {
    if bufs[k].dirty {
      assert Pinned(bufs, k + 1) == Pinned(bufs, k) + {bufs[k].blockno};
      assert bufs[k].blockno !in Pinned(bufs, k);
    } else {
      assert Pinned(bufs, k + 1) == Pinned(bufs, k);
    }
  }

  /** If all buffers but `s` are pinned, so many blocks are. */
  lemma {:induction false} PinnedBut(bufs: seq<Buf>, n: nat, disk: seq<Block>, k: nat, s: nat)
    requires Coherent(bufs, n, disk) && k <= n && forall i :: 0 <= i < k && i != s ==> bufs[i].dirty
    ensures k - 1 <= |Pinned(bufs, k)| && (k <= s ==> |Pinned(bufs, k)| == k)
  {
    if k > 0 {
      PinnedBut(bufs, n, disk, k - 1, s);
      PinnedStep(bufs, n, disk, k - 1);
    }
  }

  /** With one buffer unpinned, at most the others are pinned, and if so many blocks are, all of them. */
  lemma {:induction false} PinnedApart(bufs: seq<Buf>, n: nat, disk: seq<Block>, k: nat, s: nat)
    requires Coherent(bufs, n, disk) && k <= n && s < n && !bufs[s].dirty
    ensures |Pinned(bufs, k)| <= k && (s < k ==> |Pinned(bufs, k)| < k)
    ensures k <= |Pinned(bufs, k)| + (if s < k then 1 else 0) ==> forall i :: 0 <= i < k && i != s ==> bufs[i].dirty
  {
    if k > 0 {
      PinnedApart(bufs, n, disk, k - 1, s);
      PinnedStep(bufs, n, disk, k - 1);
    }
  }

  /** With no buffer in use, a block that is not pinned can be read exactly when not all buffers are. */
  lemma ReadableIff(bufs: seq<Buf>, n: nat, disk: seq<Block>, x: nat)
    requires Coherent(bufs, n, disk) && x !in Pinned(bufs, n) && forall i :: 0 <= i < n ==> bufs[i].refcnt == 0
    ensures Readable(bufs, n, x) <==> |Pinned(bufs, n)| < n
  {
    PinnedCount(bufs, n, disk, n);
    if |Pinned(bufs, n)| < n {
      var i :| 0 <= i < n && !bufs[i].dirty;
      assert Unused(bufs[i]);
    } else {
      forall i | 0 <= i < n ensures !Caches(bufs[i], ROOTDEV, x) { assert bufs[i].blockno in Pinned(bufs, n); }
    }
  }

  /** What bget and bread come to: a buffer the caller now holds, one that somebody else holds, or the
      panic for lack of a buffer. */
  datatype Grant = Mine(b: nat) | Busy(b: nat) | NoBuffer

  /** The block has a buffer, or there is one to recycle. */
  ghost predicate Readable(bufs: seq<Buf>, n: nat, blockno: nat)
    requires n <= |bufs|
  {
    Lookup(bufs, n, ROOTDEV, blockno) < n || exists i :: 0 <= i < n && Unused(bufs[i])
  }

  class Bcache {
    const n: nat
    var bufs: seq<Buf>
    var disk: seq<Block>
    /** The disk at power-up. */
    const disk0: seq<Block>
    /** The buffers from most to least recently released. */
    ghost var lru: seq<nat>
    /** All block writes made to the disk since, in order: a power cut leaves a prefix of them. */
    var writes: seq<BlockWrite>

    /** The list is a cycle through all buffers, and the disk is what the writes made it. */
    ghost predicate Listed()
      reads this
    {
      && Links(bufs, n, lru) && Complete(n, lru)
      && disk == Written(disk0, writes)
    }

    ghost predicate Valid()
      reads this
    {
      Listed() && Coherent(bufs, n, disk)
    }

    /** What bread would return for the block. */
    ghost function Shows(blockno: nat): Block
      reads this
      requires Valid() && blockno < |disk|
    {
      View(bufs, n, disk, blockno)
    }

    /** A buffer that the caller holds. */
    ghost predicate Holds(b: nat, blockno: nat)
      reads this
    {
      b < n < |bufs| && bufs[b].locked && Caches(bufs[b], ROOTDEV, blockno) && bufs[b].valid
    }

    constructor Binit(n: nat, disk: seq<Block>)
      ensures Valid() && this.n == n && this.disk == disk0 == disk && writes == []
      ensures forall i :: 0 <= i < n ==> Unused(bufs[i]) && !bufs[i].valid && !bufs[i].locked
      ensures forall i :: 0 <= i < n ==> lru[i] == n - 1 - i
    {
      this.n := n;
      this.disk := disk;
      this.disk0 := disk;
      writes := [];
      new;
      hide Links, AllBlank;
      bufs := seq(n + 1, i => Blank);
      bufs := bufs[n := bufs[n].(prev := n, next := n)];
      lru := [];
      NoneLinked(bufs, n);
      var b := 0;
      while b < n
        invariant 0 <= b <= n == this.n && this.disk == disk == disk0 && writes == []
        invariant Links(bufs, n, lru) && |lru| == b
        invariant forall i :: 0 <= i < b ==> lru[i] == b - 1 - i
        invariant |bufs| == n + 1 && AllBlank(bufs)
      {
        PushedLinks(bufs, n, lru, b);
        PushedBlank(bufs, n, b);
        bufs := bufs[b := bufs[b].(next := bufs[n].next, prev := n)];
        bufs := bufs[bufs[n].next := bufs[bufs[n].next].(prev := b)];
        bufs := bufs[n := bufs[n].(next := b)];
        lru := [b] + lru;
        b := b + 1;
      }
      BlankCache(bufs, n, lru, disk);
    }

    /** The first loop of bget: the buffer that caches the block, or the head. */
    method FindCached(blockno: nat) returns (b: nat)
      requires Valid()
      ensures b == Lookup(bufs, n, ROOTDEV, blockno)
    {
      assert Place(n, lru, 0) == n;
      b := bufs[n].next;
      ghost var p := 0;
      while b != n
        invariant 0 <= p <= n && b == Place(n, lru, p + 1)
        invariant forall q :: 0 <= q < p ==> !Caches(bufs[lru[q]], ROOTDEV, blockno)
        decreases n - p
      {
        if bufs[b].dev == ROOTDEV && bufs[b].blockno == blockno {
          LookupIs(bufs, n, disk, b);
          return;
        }
        b := bufs[b].next;
        p := p + 1;
      }
      NoneCached(bufs, n, lru, blockno);
    }

    /** The second loop of bget: from the tail, the first buffer that is neither referenced
        nor pinned, or the head. */
    method FindUnused() returns (b: nat)
      requires Valid()
      ensures b <= n
      ensures b == n ==> forall i :: 0 <= i < n ==> !Unused(bufs[i])
      ensures b < n ==> Unused(bufs[b])
      ensures b < n ==>
                exists p :: 0 <= p < n && lru[p] == b && forall q :: p < q < n ==> !Unused(bufs[lru[q]])
    {
      assert Place(n, lru, n + 1) == n;
      b := bufs[n].prev;
      ghost var p := n;
      while b != n
        invariant 0 <= p <= n && b == Place(n, lru, p)
        invariant forall q :: p <= q < n ==> !Unused(bufs[lru[q]])
        decreases p
      {
        if bufs[b].refcnt == 0 && !bufs[b].dirty {
          assert lru[p - 1] == b;
          return;
        }
        b := bufs[b].prev;
        p := p - 1;
      }
      NoneUnused(bufs, n, lru);
    }

    /** A cached buffer gets another reference, and the lock if it is free. */
    method Refer(b: nat)
      requires Valid() && b < n && bufs[b].dev == ROOTDEV
      modifies this`bufs
      ensures Valid() && bufs == old(bufs)[b := old(bufs)[b].(refcnt := old(bufs)[b].refcnt + 1, locked := true)]
      ensures forall y :: 0 <= y < |disk| ==> Shows(y) == old(Shows(y))
    {
      var c := bufs[b].(refcnt := bufs[b].refcnt + 1, locked := true);
      forall y | 0 <= y < |disk| ensures View(bufs[b := c], n, disk, y) == View(bufs, n, disk, y) {
        UpdateView(bufs, n, disk, b, c, y);
        UpdateView(bufs, n, disk, b, bufs[b], y);
      }
      RelabelLinks(bufs, n, lru, b, c);
      bufs := bufs[b := c];
    }

    /** The least recently used free buffer is given to the block. */
    method Recycle(b: nat, blockno: nat)
      requires Valid() && b < n && Unused(bufs[b]) && blockno < |disk| && Lookup(bufs, n, ROOTDEV, blockno) == n
      modifies this`bufs
      ensures Valid() && bufs == old(bufs)[b := Recycled(old(bufs)[b], blockno)]
      ensures forall y :: 0 <= y < |disk| ==> Shows(y) == old(Shows(y))
    {
      var c := bufs[b].(dev := ROOTDEV, blockno := blockno, valid := false, dirty := false,
                        refcnt := 1, locked := true);
      RecycleCoherent(bufs, n, disk, b, blockno);
      forall y | 0 <= y < |disk| ensures View(bufs[b := c], n, disk, y) == View(bufs, n, disk, y) {
        RecycleKeepsView(bufs, n, disk, b, blockno, y);
      }
      RelabelLinks(bufs, n, lru, b, c);
      bufs := bufs[b := c];
    }

    /** Look the block up, else recycle the least recently used buffer that is neither referenced nor
        pinned.  If somebody holds the buffer, the caller sleeps with a reference to it; if there is
        none to recycle, the source panics. */
    method Bget(blockno: nat) returns (r: Grant)
      requires Valid() && blockno < |disk|
      modifies this`bufs
      ensures Valid()
      ensures r.NoBuffer? <==> !Readable(old(bufs), n, blockno)
      ensures r.NoBuffer? ==> bufs == old(bufs)
      ensures r.Busy? <==> Lookup(old(bufs), n, ROOTDEV, blockno) < n
                           && old(bufs)[Lookup(old(bufs), n, ROOTDEV, blockno)].locked
      ensures !r.NoBuffer? ==> r.b < n
      ensures !r.NoBuffer? && Lookup(old(bufs), n, ROOTDEV, blockno) < n ==>
                && r.b == Lookup(old(bufs), n, ROOTDEV, blockno)
                && bufs == old(bufs)[r.b := old(bufs)[r.b].(refcnt := old(bufs)[r.b].refcnt + 1, locked := true)]
      ensures r.Mine? && Lookup(old(bufs), n, ROOTDEV, blockno) == n ==>
                && Unused(old(bufs)[r.b]) && bufs == old(bufs)[r.b := Recycled(old(bufs)[r.b], blockno)]
                && exists p :: 0 <= p < n && lru[p] == r.b && forall q :: p < q < n ==> !Unused(old(bufs)[lru[q]])
      ensures forall y :: 0 <= y < |disk| ==> Shows(y) == old(Shows(y))
    {
      hide Complete, Coherent, View;
      var b := FindCached(blockno);
      if b != n {
        var held := bufs[b].locked;
        Refer(b);
        return if held then Busy(b) else Mine(b);
      }
      b := FindUnused();
      if b == n { return NoBuffer; }
      Recycle(b, blockno);
      return Mine(b);
    }

    /** iderw of a buffer with B_DIRTY set: write it to disk. */
    method IderwWrite(b: nat)
      requires Valid() && b < n && bufs[b].locked && bufs[b].dev == ROOTDEV && bufs[b].dirty
      modifies this
      ensures Valid() && lru == old(lru)
      ensures bufs == old(bufs)[b := old(bufs)[b].(dirty := false)]
      ensures disk == old(disk)[bufs[b].blockno := bufs[b].data]
      ensures writes == old(writes) + [BlockWrite(bufs[b].blockno, bufs[b].data)]
      ensures forall y :: 0 <= y < |disk| ==> Shows(y) == old(Shows(y))
      ensures Pinned(bufs, n) == Pinned(old(bufs), n) - {bufs[b].blockno}
    {
      var x := bufs[b].blockno;
      var c, d := bufs[b].(dirty := false, valid := true), disk[x := bufs[b].data];
      forall y | 0 <= y < |disk| ensures View(bufs[b := c], n, d, y) == View(bufs, n, disk, y) {
        WriteView(bufs, n, disk, b, c, y);
      }
      UpdateCoherent(bufs, n, disk, b, c, c.data);
      RelabelLinks(bufs, n, lru, b, c);
      PinOne(bufs, n, disk, b, c);
      WrittenOne(disk0, writes, BlockWrite(x, c.data));
      bufs := bufs[b := c];
      disk := d;
      writes := writes + [BlockWrite(x, c.data)];
    }

    /** iderw of a buffer with neither flag set: read it from disk. */
    method IderwRead(b: nat)
      requires Valid() && b < n && bufs[b].locked && bufs[b].dev == ROOTDEV && !bufs[b].dirty && !bufs[b].valid
      modifies this`bufs
      ensures Valid()
      ensures bufs == old(bufs)[b := old(bufs)[b].(data := disk[old(bufs)[b].blockno], valid := true)]
      ensures forall y :: 0 <= y < |disk| ==> Shows(y) == old(Shows(y))
      ensures Pinned(bufs, n) == Pinned(old(bufs), n)
    {
      var c := bufs[b].(data := disk[bufs[b].blockno], valid := true);
      forall y | 0 <= y < |disk| ensures View(bufs[b := c], n, disk, y) == View(bufs, n, disk, y) {
        UpdateView(bufs, n, disk, b, c, y);
        UpdateView(bufs, n, disk, b, bufs[b], y);
      }
      RelabelLinks(bufs, n, lru, b, c);
      SamePinned(bufs, bufs[b := c], n);
      bufs := bufs[b := c];
    }

    /** The end of bget and bread for a buffer whose lock the caller has: its contents are read from
        disk unless they are there. */
    method Load(b: nat)
      requires Valid() && b < n && bufs[b].locked && bufs[b].dev == ROOTDEV
      modifies this`bufs
      ensures Valid() && Holds(b, bufs[b].blockno) && bufs[b].data == Shows(bufs[b].blockno)
      ensures bufs == old(bufs)[b := old(bufs)[b].(data := bufs[b].data, valid := true)]
      ensures bufs[b].data == if old(bufs)[b].valid then old(bufs)[b].data else disk[bufs[b].blockno]
      ensures forall y :: 0 <= y < |disk| ==> Shows(y) == old(Shows(y))
      ensures Pinned(bufs, n) == Pinned(old(bufs), n)
    {
      UpdateView(bufs, n, disk, b, bufs[b], bufs[b].blockno);
      if !bufs[b].valid { IderwRead(b); }
      UpdateView(bufs, n, disk, b, bufs[b], bufs[b].blockno);
    }

    /** bread: a locked buffer with the latest contents of the block; reading changes neither what readers
        see nor the disk nor what is pinned or held.  While somebody else holds the buffer the caller
        sleeps, with a reference that keeps the buffer from being recycled. */
    method Bread(blockno: nat) returns (r: Grant)
      requires Valid() && blockno < |disk|
      modifies this`bufs
      ensures Valid()
      ensures r.NoBuffer? <==> !Readable(old(bufs), n, blockno)
      ensures r.Busy? <==> Lookup(old(bufs), n, ROOTDEV, blockno) < n
                           && old(bufs)[Lookup(old(bufs), n, ROOTDEV, blockno)].locked
      ensures r.NoBuffer? ==> bufs == old(bufs)
      ensures r.Busy? ==> r.b < n && Caches(bufs[r.b], ROOTDEV, blockno) && bufs[r.b].locked && !Unused(bufs[r.b])
      ensures r.Mine? ==> Holds(r.b, blockno) && bufs[r.b].data == old(Shows(blockno))
      ensures r.Mine? && !bufs[r.b].dirty ==> bufs[r.b].data == disk[blockno]
      ensures r.Mine? ==>
                bufs[r.b].refcnt == 1 + if Caches(old(bufs)[r.b], ROOTDEV, blockno) then old(bufs)[r.b].refcnt else 0
      ensures r.Mine? ==> !old(bufs)[r.b].locked && (Caches(old(bufs)[r.b], ROOTDEV, blockno) || Unused(old(bufs)[r.b]))
      ensures forall i :: 0 <= i < n && (r.NoBuffer? || i != r.b) ==> bufs[i] == old(bufs)[i]
      ensures forall y :: 0 <= y < |disk| ==> Shows(y) == old(Shows(y))
      ensures Pinned(bufs, n) == Pinned(old(bufs), n)
    {
      hide Links, Complete, View;
      r := Bget(blockno);
      SamePinned(old(bufs), bufs, n);
      if r.Mine? {
        var b := r.b;
        Load(b);
        assert forall i :: 0 <= i < n && i != b ==> bufs[i] == old(bufs)[i];
      }
    }

    /** The rest of a bread that found the buffer held, once its holder has let go. */
    method Resume(b: nat)
      requires Valid() && b < n && bufs[b].dev == ROOTDEV && !bufs[b].locked && 0 < bufs[b].refcnt
      modifies this`bufs
      ensures Valid() && Holds(b, bufs[b].blockno) && bufs[b].data == old(Shows(bufs[b].blockno))
      ensures bufs == old(bufs)[b := old(bufs)[b].(data := bufs[b].data, valid := true, locked := true)]
      ensures forall y :: 0 <= y < |disk| ==> Shows(y) == old(Shows(y))
      ensures Pinned(bufs, n) == Pinned(old(bufs), n)
    {
      hide Complete, View;
      Lock(b);
      Load(b);
    }

    /** The end of acquiresleep. */
    method Lock(b: nat)
      requires Valid() && b < n && bufs[b].dev == ROOTDEV && !bufs[b].locked && 0 < bufs[b].refcnt
      modifies this`bufs
      ensures Valid() && bufs == old(bufs)[b := old(bufs)[b].(locked := true)]
      ensures forall y :: 0 <= y < |disk| ==> Shows(y) == old(Shows(y))
      ensures Pinned(bufs, n) == Pinned(old(bufs), n)
    {
      var c := bufs[b].(locked := true);
      forall y | 0 <= y < |disk| ensures View(bufs[b := c], n, disk, y) == View(bufs, n, disk, y) {
        UpdateView(bufs, n, disk, b, c, y);
        UpdateView(bufs, n, disk, b, bufs[b], y);
      }
      RelabelLinks(bufs, n, lru, b, c);
      SamePinned(bufs, bufs[b := c], n);
      bufs := bufs[b := c];
    }

    /** The caller fills a buffer it holds. */
    method Fill(b: nat, data: Block)
      requires Valid() && b < n && Holds(b, bufs[b].blockno)
      modifies this`bufs
      ensures Valid()
      ensures bufs == old(bufs)[b := old(bufs)[b].(data := data)]
      ensures forall y :: 0 <= y < |disk| ==> Shows(y) == if y == bufs[b].blockno then data else old(Shows(y))
      ensures Pinned(bufs, n) == Pinned(old(bufs), n)
    {
      var c := bufs[b].(data := data);
      forall y | 0 <= y < |disk|
        ensures View(bufs[b := c], n, disk, y) == if y == c.blockno then data else View(bufs, n, disk, y)
      {
        UpdateView(bufs, n, disk, b, c, y);
      }
      RelabelLinks(bufs, n, lru, b, c);
      SamePinned(bufs, bufs[b := c], n);
      bufs := bufs[b := c];
    }

    /** log_write's part in the cache: pin the buffer until commit. */
    method Pin(b: nat)
      requires Valid() && b < n && Holds(b, bufs[b].blockno)
      modifies this`bufs
      ensures Valid()
      ensures bufs == old(bufs)[b := old(bufs)[b].(dirty := true)]
      ensures forall y :: 0 <= y < |disk| ==> Shows(y) == old(Shows(y))
      ensures Pinned(bufs, n) == Pinned(old(bufs), n) + {bufs[b].blockno}
    {
      var c := bufs[b].(dirty := true);
      forall y | 0 <= y < |disk| ensures View(bufs[b := c], n, disk, y) == View(bufs, n, disk, y) {
        UpdateView(bufs, n, disk, b, c, y);
        UpdateView(bufs, n, disk, b, bufs[b], y);
      }
      RelabelLinks(bufs, n, lru, b, c);
      PinOne(bufs, n, disk, b, c);
      bufs := bufs[b := c];
    }

    /** Write the buffer to disk. */
    method Bwrite(b: nat)
      requires Valid() && b < n && Holds(b, bufs[b].blockno)
      modifies this
      ensures Valid() && lru == old(lru)
      ensures bufs == old(bufs)[b := old(bufs)[b].(dirty := false)]
      ensures disk == old(disk)[bufs[b].blockno := bufs[b].data]
      ensures writes == old(writes) + [BlockWrite(bufs[b].blockno, bufs[b].data)]
      ensures forall y :: 0 <= y < |disk| ==> Shows(y) == old(Shows(y))
      ensures Pinned(bufs, n) == Pinned(old(bufs), n) - {bufs[b].blockno}
    {
      Pin(b);
      IderwWrite(b);
    }

    /** brelse: give up a held buffer and, when nobody refers to it, make it the most recently used.
        Readers see what they saw.  The cache stays coherent exactly when the holder had pinned or
        written what it changed. */
    method Brelse(b: nat)
      requires Valid() && b < n && Holds(b, bufs[b].blockno)
      modifies this`bufs, this`lru
      ensures Listed() && (Valid() <==> old(bufs)[b].dirty || old(bufs)[b].data == disk[old(bufs)[b].blockno])
      ensures SameBuffers(bufs, old(bufs)[b := old(bufs)[b].(locked := false, refcnt := old(bufs)[b].refcnt - 1)])
      ensures old(bufs)[b].refcnt > 1 ==> lru == old(lru)
      ensures old(bufs)[b].refcnt == 1 ==>
                exists p :: 0 <= p < n && old(lru)[p] == b && lru == [b] + Without(old(lru), p)
      ensures forall y :: 0 <= y < |disk| ==> View(bufs, n, disk, y) == old(Shows(y))
      ensures Pinned(bufs, n) == Pinned(old(bufs), n)
    {
      hide Links, Complete, Coherent;
      Unlock(b);
      ghost var t := bufs;
      if bufs[b].refcnt == 0 { ToFront(b); }
      SameSides(bufs, t, n, disk);
      SamePinned(bufs, t, n);
    }

    /** The second half: make the buffer the most recently used. */
    method ToFront(b: nat)
      requires Listed() && b < n
      modifies this`bufs, this`lru
      ensures Listed() && SameBuffers(bufs, old(bufs))
      ensures exists p :: 0 <= p < n && old(lru)[p] == b && lru == [b] + Without(old(lru), p)
    {
      assert b in lru;
      ghost var p :| 0 <= p < |lru| && lru[p] == b;
      MoveToFront(bufs, n, lru, p);
      FrontComplete(n, lru, p);
      bufs := bufs[bufs[b].next := bufs[bufs[b].next].(prev := bufs[b].prev)];
      bufs := bufs[bufs[b].prev := bufs[bufs[b].prev].(next := bufs[b].next)];
      bufs := bufs[b := bufs[b].(next := bufs[n].next, prev := n)];
      bufs := bufs[bufs[n].next := bufs[bufs[n].next].(prev := b)];
      bufs := bufs[n := bufs[n].(next := b)];
      lru := [b] + Without(lru, p);
      assert bufs == Pushed(Unlinked(old(bufs), b), n, b);
    }

    /** The first half of brelse: give up the lock and the reference. */
    method Unlock(b: nat)
      requires Valid() && b < n && Holds(b, bufs[b].blockno)
      modifies this`bufs
      ensures Listed()
      ensures bufs == old(bufs)[b := old(bufs)[b].(locked := false, refcnt := old(bufs)[b].refcnt - 1)]
      ensures Coherent(bufs, n, disk) <==> old(bufs)[b].dirty || old(bufs)[b].data == disk[old(bufs)[b].blockno]
      ensures forall y :: 0 <= y < |disk| ==> View(bufs, n, disk, y) == old(Shows(y))
      ensures Pinned(bufs, n) == Pinned(old(bufs), n)
    {
      var c := bufs[b].(locked := false, refcnt := bufs[b].refcnt - 1);
      forall y | 0 <= y < |disk| ensures View(bufs[b := c], n, disk, y) == View(bufs, n, disk, y) {
        UpdateView(bufs, n, disk, b, c, y);
        UpdateView(bufs, n, disk, b, bufs[b], y);
      }
      RelabelLinks(bufs, n, lru, b, c);
      SamePinned(bufs, bufs[b := c], n);
      UnlockedCoherent(bufs, n, disk, b, c);
      bufs := bufs[b := c];
    }
  }
}
