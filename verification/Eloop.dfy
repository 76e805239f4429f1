/**
 The event loop's timeout list (dhcpcd/eloop.c) as a pure specification.

 A `Loop` is the pair of lists the program keeps (`timeouts` in due order and the pool of
 `free` nodes) together with the node whose callback is running.  A node is the identity of one
 allocated `struct timeout`; it moves between the lists and is never given back to the heap.
 Times are microseconds; `queue` is the caller's queue number.
 */
module Eloop {
  import opened Common

  datatype Timeout = Timeout(node: nat, when: int, callback: Callback, arg: nat, queue: int)

  datatype Loop = Loop(
    timeouts: seq<Timeout>,
    free: seq<nat>,
    inFlight: Option<nat>,
    nodes: nat)  // how many nodes have been allocated so far

  // tv_sec is a signed 64-bit number of seconds
  const TIME_LIMIT := 9_223_372_036_854_775_808_000_000

  /** timeradd: the sum wraps when the seconds no longer fit. */
  function TimerAdd(now: int, delay: int): int {
    var w := now + delay;
    if w >= TIME_LIMIT then w - 2 * TIME_LIMIT else w
  }

  // ----- list operations

  /** Position of the timeout registered for (cb, arg), or the length when there is none. */
  function Find(q: seq<Timeout>, cb: Callback, arg: nat): (i: nat)
    ensures i <= |q|
    ensures forall j :: 0 <= j < i ==> !(q[j].callback == cb && q[j].arg == arg)
    ensures i < |q| ==> q[i].callback == cb && q[i].arg == arg
  {
    if q == [] then 0
    else if q[0].callback == cb && q[0].arg == arg then 0
    else 1 + Find(q[1..], cb, arg)
  }

  function RemoveAt<T>(q: seq<T>, i: nat): seq<T>
    requires i < |q|
  {
    q[..i] + q[i + 1..]
  }

  /** First position whose due time is strictly later than w. */
  function Place(q: seq<Timeout>, w: int): (i: nat)
    ensures i <= |q|
    ensures forall j :: 0 <= j < i ==> q[j].when <= w
    ensures i < |q| ==> w < q[i].when
  {
    if q == [] then 0
    else if w < q[0].when then 0
    else 1 + Place(q[1..], w)
  }

  function Insert(q: seq<Timeout>, t: Timeout): seq<Timeout> {
    var i := Place(q, t.when);
    q[..i] + [t] + q[i..]
  }

  /** The entries that a deletion keeps, in order. */
  function Kept(q: seq<Timeout>, keep: Timeout -> bool): seq<Timeout> {
    if q == [] then []
    else if keep(q[0]) then [q[0]] + Kept(q[1..], keep)
    else Kept(q[1..], keep)
  }

  /** The nodes that a deletion moves to the free pool, in order. */
  function Dropped(q: seq<Timeout>, keep: Timeout -> bool): seq<nat> {
    if q == [] then []
    else if keep(q[0]) then Dropped(q[1..], keep)
    else [q[0].node] + Dropped(q[1..], keep)
  }

  // ----- the operations of eloop.c

  /** eloop_q_timeout_add_tv; the second component is false on ERANGE. */
  function Add(l: Loop, queue: int, now: int, delay: int, cb: Callback, arg: nat): (Loop, bool) {
    var w := TimerAdd(now, delay);
    if w < now then (l, false)
    else
      var i := Find(l.timeouts, cb, arg);
      if i < |l.timeouts| then
        var t := Timeout(l.timeouts[i].node, w, cb, arg, queue);
        (l.(timeouts := Insert(RemoveAt(l.timeouts, i), t)), true)
      else if l.free != [] then
        var t := Timeout(l.free[0], w, cb, arg, queue);
        (l.(timeouts := Insert(l.timeouts, t), free := l.free[1..]), true)
      else
        var t := Timeout(l.nodes, w, cb, arg, queue);
        (l.(timeouts := Insert(l.timeouts, t), nodes := l.nodes + 1), true)
  }

  function KeepUnless(queue: int, cb: Option<Callback>, arg: nat): Timeout -> bool {
    (t: Timeout) => !(t.queue == queue && t.arg == arg && (cb == None || Some(t.callback) == cb))
  }

  function KeepOnly(queue: int, arg: nat, callbacks: seq<Callback>): Timeout -> bool {
    (t: Timeout) => !((queue == 0 || t.queue == queue) && t.arg == arg && t.callback !in callbacks)
  }

  function Discard(l: Loop, keep: Timeout -> bool): Loop {
    l.(timeouts := Kept(l.timeouts, keep), free := l.free + Dropped(l.timeouts, keep))
  }

  /** eloop_q_timeout_delete; no callback means every callback of `arg`. */
  function Delete(l: Loop, queue: int, cb: Option<Callback>, arg: nat): Loop {
    Discard(l, KeepUnless(queue, cb, arg))
  }

  /** eloop_q_timeouts_delete: everything of `arg` except the callbacks given. */
  function DeleteExcept(l: Loop, queue: int, arg: nat, callbacks: seq<Callback>): Loop {
    Discard(l, KeepOnly(queue, arg, callbacks))
  }

  predicate CanFire(l: Loop, now: int) {
    l.inFlight == None && l.timeouts != [] && l.timeouts[0].when < now
  }

  /** The loop takes the head off the list and runs its callback; the node is in neither list. */
  function BeginFire(l: Loop): Loop
    requires l.timeouts != []
  {
    l.(timeouts := l.timeouts[1..], inFlight := Some(l.timeouts[0].node))
  }

  /** The callback returned: the node goes to the pool. */
  function EndFire(l: Loop): Loop {
    if l.inFlight == None then l
    else l.(free := l.free + [l.inFlight.value], inFlight := None)
  }

  // ----- what every operation keeps

  ghost predicate Sorted(q: seq<Timeout>) {
    forall i, j :: 0 <= i < j < |q| ==> q[i].when <= q[j].when
  }

  ghost predicate UniqueKeys(q: seq<Timeout>) {
    forall i, j :: 0 <= i < j < |q| ==> !(q[i].callback == q[j].callback && q[i].arg == q[j].arg)
  }

  function NodesOf(q: seq<Timeout>): (s: seq<nat>)
    ensures |s| == |q| && forall i :: 0 <= i < |q| ==> s[i] == q[i].node
  {
    seq(|q|, i requires 0 <= i < |q| => q[i].node)
  }

  ghost function AllNodes(n: nat): (m: multiset<nat>)
    ensures forall k: nat :: m[k] == if k < n then 1 else 0
  {
    if n == 0 then multiset{} else AllNodes(n - 1)[n - 1 := 1]
  }

  /** Every place a node can be, with multiplicity. */
  ghost function Whereabouts(l: Loop): multiset<nat> {
    multiset(NodesOf(l.timeouts)) + multiset(l.free) + (if l.inFlight.Some? then multiset{l.inFlight.value} else multiset{})
  }

  /** Sorted list, one entry per (callback, arg), and each allocated node in exactly one place. */
  ghost predicate Valid(l: Loop) {
    && Sorted(l.timeouts)
    && UniqueKeys(l.timeouts)
    && Whereabouts(l) == AllNodes(l.nodes)
  }

  // ----- the abstract view: a finite map from (callback, arg) to due time and queue

  ghost function Table(q: seq<Timeout>): map<(Callback, nat), (int, int)> {
    if q == [] then map[]
    else Table(q[1..])[(q[0].callback, q[0].arg) := (q[0].when, q[0].queue)]
  }

  // ----- lemmas about the lists

  lemma NodesRemove(q: seq<Timeout>, i: nat)
    requires i < |q|
    ensures multiset(NodesOf(RemoveAt(q, i))) + multiset{q[i].node} == multiset(NodesOf(q))
  {
    var n := NodesOf(q);
    assert n == n[..i] + [n[i]] + n[i + 1..];
    assert NodesOf(RemoveAt(q, i)) == n[..i] + n[i + 1..];
  }

  lemma NodesInsert(q: seq<Timeout>, t: Timeout)
    ensures multiset(NodesOf(Insert(q, t))) == multiset(NodesOf(q)) + multiset{t.node}
  {
    var i := Place(q, t.when);
    var n := NodesOf(q);
    assert NodesOf(Insert(q, t)) == n[..i] + [t.node] + n[i..];
    assert n == n[..i] + n[i..];
  }

  lemma NodesCons(t: Timeout, q: seq<Timeout>)
    ensures multiset(NodesOf([t] + q)) == multiset{t.node} + multiset(NodesOf(q))
  {
    assert NodesOf([t] + q) == [t.node] + NodesOf(q);
  }

  /** A deletion loses no node: what leaves the list is what enters the pool. */
  lemma {:induction false} NodesKept(q: seq<Timeout>, keep: Timeout -> bool)
    ensures multiset(NodesOf(Kept(q, keep))) + multiset(Dropped(q, keep)) == multiset(NodesOf(q))
  {
    if q != [] {
      NodesKept(q[1..], keep);
      NodesCons(q[0], q[1..]);
      assert q == [q[0]] + q[1..];
      NodesCons(q[0], Kept(q[1..], keep));
    }
  }

  /** Kept entries come from the list, in the same relative order. */
  lemma {:induction false} KeptIndex(q: seq<Timeout>, keep: Timeout -> bool) returns (f: seq<nat>)
    ensures |f| == |Kept(q, keep)|
    ensures forall i :: 0 <= i < |f| ==> f[i] < |q| && q[f[i]] == Kept(q, keep)[i] && keep(q[f[i]])
    ensures forall i, j :: 0 <= i < j < |f| ==> f[i] < f[j]
  {
    if q == [] {
      f := [];
    } else {
      var g := KeptIndex(q[1..], keep);
      var shifted := seq(|g|, i requires 0 <= i < |g| => g[i] + 1);
      f := if keep(q[0]) then [0] + shifted else shifted;
    }
  }

  lemma {:induction false} KeptOrdered(q: seq<Timeout>, keep: Timeout -> bool)
    requires Sorted(q) && UniqueKeys(q)
    ensures Sorted(Kept(q, keep)) && UniqueKeys(Kept(q, keep))
  {
    var f := KeptIndex(q, keep);
  }

  lemma {:induction false} TableIs(q: seq<Timeout>)
    requires UniqueKeys(q)
    ensures forall i :: 0 <= i < |q| ==>
      (q[i].callback, q[i].arg) in Table(q) && Table(q)[(q[i].callback, q[i].arg)] == (q[i].when, q[i].queue)
    ensures forall k :: k in Table(q) ==> exists i :: 0 <= i < |q| && (q[i].callback, q[i].arg) == k
  {
    if q != [] {
      TableIs(q[1..]);
      forall k | k in Table(q)
        ensures exists i :: 0 <= i < |q| && (q[i].callback, q[i].arg) == k
      {
        if k != (q[0].callback, q[0].arg) {
          var i :| 0 <= i < |q[1..]| && (q[1..][i].callback, q[1..][i].arg) == k;
          assert q[i + 1] == q[1..][i];
        } else {
          assert (q[0].callback, q[0].arg) == k;
        }
      }
    }
  }

  /** Two lists with unique keys and the same entries have the same table. */
  lemma {:induction false} SameEntries(p: seq<Timeout>, m: map<(Callback, nat), (int, int)>)
    requires UniqueKeys(p)
    requires forall i :: 0 <= i < |p| ==> (p[i].callback, p[i].arg) in m && m[(p[i].callback, p[i].arg)] == (p[i].when, p[i].queue)
    requires forall k :: k in m ==> exists i :: 0 <= i < |p| && (p[i].callback, p[i].arg) == k
    ensures Table(p) == m
  {
    TableIs(p);
    forall k | k in m ensures k in Table(p) && Table(p)[k] == m[k] {
      var i :| 0 <= i < |p| && (p[i].callback, p[i].arg) == k;
    }
    forall k | k in Table(p) ensures k in m {
      var i :| 0 <= i < |p| && (p[i].callback, p[i].arg) == k;
    }
  }

  // ----- refinement: each operation on the lists is the obvious one on the table

  /** The list after dropping any entry for the key and inserting t at its place. */
  function Rescheduled(q: seq<Timeout>, t: Timeout): seq<Timeout> {
    var i := Find(q, t.callback, t.arg);
    Insert(if i < |q| then RemoveAt(q, i) else q, t)
  }

  ghost predicate Absent(q: seq<Timeout>, cb: Callback, arg: nat) {
    forall i :: 0 <= i < |q| ==> !(q[i].callback == cb && q[i].arg == arg)
  }

  /** p is q with t put in front of position k. */
  ghost predicate Spliced(q: seq<Timeout>, t: Timeout, k: nat, p: seq<Timeout>) {
    && k <= |q| && |p| == |q| + 1 && p[k] == t
    && (forall j :: 0 <= j < k ==> p[j] == q[j])
    && (forall j :: k <= j < |q| ==> p[j + 1] == q[j])
  }

  lemma RemoveSplices(q: seq<Timeout>, i: nat)
    requires i < |q|
    ensures Spliced(RemoveAt(q, i), q[i], i, q)
  {
  }

  lemma InsertSplices(q: seq<Timeout>, t: Timeout)
    ensures Spliced(q, t, Place(q, t.when), Insert(q, t))
  {
  }

  lemma SplicedFrom(q: seq<Timeout>, t: Timeout, k: nat, p: seq<Timeout>)
    requires Spliced(q, t, k, p) && Sorted(p) && UniqueKeys(p)
    ensures Sorted(q) && UniqueKeys(q) && Absent(q, t.callback, t.arg)
  {
    var at := (j: int) => if j < k then j else j + 1;
    assert forall j :: 0 <= j < |q| ==> q[j] == p[at(j)];
  }

  lemma SplicedInto(q: seq<Timeout>, t: Timeout, k: nat, p: seq<Timeout>)
    requires Spliced(q, t, k, p) && Sorted(q) && UniqueKeys(q) && Absent(q, t.callback, t.arg)
    requires forall j :: 0 <= j < k ==> q[j].when <= t.when
    requires forall j :: k <= j < |q| ==> t.when <= q[j].when
    ensures Sorted(p) && UniqueKeys(p)
  {
    assert forall j :: k < j < |p| ==> p[j] == q[j - 1];
    assert Sorted(p);
    assert UniqueKeys(p);
  }

  lemma {:induction false} SplicedTable(q: seq<Timeout>, t: Timeout, k: nat, p: seq<Timeout>)
    requires Spliced(q, t, k, p) && UniqueKeys(p) && UniqueKeys(q) && Absent(q, t.callback, t.arg)
    ensures Table(p) == Table(q)[(t.callback, t.arg) := (t.when, t.queue)]
    ensures (t.callback, t.arg) !in Table(q)
  {
    var m := Table(q)[(t.callback, t.arg) := (t.when, t.queue)];
    TableIs(q);
    forall key | key in m ensures exists j :: 0 <= j < |p| && (p[j].callback, p[j].arg) == key {
      if key == (t.callback, t.arg) {
        assert p[k] == t;
      } else {
        var j :| 0 <= j < |q| && (q[j].callback, q[j].arg) == key;
        assert p[if j < k then j else j + 1] == q[j];
      }
    }
    assert forall j :: k < j < |p| ==> p[j] == q[j - 1];
    SameEntries(p, m);
  }

  lemma SplicedWithout(q: seq<Timeout>, t: Timeout, k: nat, p: seq<Timeout>)
    requires Spliced(q, t, k, p) && Sorted(p) && UniqueKeys(p)
    ensures Sorted(q) && UniqueKeys(q) && Absent(q, t.callback, t.arg)
    ensures Table(q) == Table(p) - {(t.callback, t.arg)}
  {
    SplicedFrom(q, t, k, p);
    SplicedTable(q, t, k, p);
  }

  lemma RemoveRefines(q: seq<Timeout>, i: nat)
    requires i < |q| && Sorted(q) && UniqueKeys(q)
    ensures var r := RemoveAt(q, i);
      && Sorted(r) && UniqueKeys(r) && Absent(r, q[i].callback, q[i].arg)
      && Table(r) == Table(q) - {(q[i].callback, q[i].arg)}
  {
    RemoveSplices(q, i);
    SplicedWithout(RemoveAt(q, i), q[i], i, q);
  }

  lemma InsertRefines(q: seq<Timeout>, t: Timeout)
    requires Sorted(q) && UniqueKeys(q) && Absent(q, t.callback, t.arg)
    ensures var p := Insert(q, t);
      && Sorted(p) && UniqueKeys(p)
      && Table(p) == Table(q)[(t.callback, t.arg) := (t.when, t.queue)]
  {
    var k := Place(q, t.when);
    var p := Insert(q, t);
    InsertSplices(q, t);
    SplicedInto(q, t, k, p);
    SplicedTable(q, t, k, p);
  }

  lemma {:induction false} RescheduledRefines(q: seq<Timeout>, t: Timeout)
    requires Sorted(q) && UniqueKeys(q)
    ensures Sorted(Rescheduled(q, t)) && UniqueKeys(Rescheduled(q, t))
    ensures Table(Rescheduled(q, t)) == Table(q)[(t.callback, t.arg) := (t.when, t.queue)]
  {
    var i := Find(q, t.callback, t.arg);
    if i < |q| {
      RemoveRefines(q, i);
      InsertRefines(RemoveAt(q, i), t);
    } else {
      InsertRefines(q, t);
    }
  }

  /** Adding keeps the loop valid, registers exactly (cb, arg) anew, and fails only when the due
      time would lie before the present. */
  lemma {:induction false} AddRefines(l: Loop, queue: int, now: int, delay: int, cb: Callback, arg: nat)
    requires Valid(l)
    ensures var (l', ok) := Add(l, queue, now, delay, cb, arg);
      && Valid(l')
      && l'.inFlight == l.inFlight
      && (ok <==> TimerAdd(now, delay) >= now)
      && Table(l'.timeouts) ==
        if ok then Table(l.timeouts)[(cb, arg) := (TimerAdd(now, delay), queue)] else Table(l.timeouts)
  {
    var w := TimerAdd(now, delay);
    if w >= now {
      var i := Find(l.timeouts, cb, arg);
      if i < |l.timeouts| {
        AddReuses(l, Timeout(l.timeouts[i].node, w, cb, arg, queue));
      } else if l.free != [] {
        AddTakes(l, Timeout(l.free[0], w, cb, arg, queue));
      } else {
        AddAllocates(l, Timeout(l.nodes, w, cb, arg, queue));
      }
    }
  }

  lemma AddReuses(l: Loop, t: Timeout)
    requires Valid(l)
    requires var i := Find(l.timeouts, t.callback, t.arg); i < |l.timeouts| && l.timeouts[i].node == t.node
    ensures Valid(l.(timeouts := Rescheduled(l.timeouts, t)))
    ensures Table(Rescheduled(l.timeouts, t)) == Table(l.timeouts)[(t.callback, t.arg) := (t.when, t.queue)]
  {
    var i := Find(l.timeouts, t.callback, t.arg);
    RescheduledRefines(l.timeouts, t);
    NodesRemove(l.timeouts, i);
    NodesInsert(RemoveAt(l.timeouts, i), t);
  }

  lemma AddTakes(l: Loop, t: Timeout)
    requires Valid(l) && l.free != [] && t.node == l.free[0]
    requires Find(l.timeouts, t.callback, t.arg) == |l.timeouts|
    ensures Valid(l.(timeouts := Insert(l.timeouts, t), free := l.free[1..]))
    ensures Table(Insert(l.timeouts, t)) == Table(l.timeouts)[(t.callback, t.arg) := (t.when, t.queue)]
  {
    RescheduledRefines(l.timeouts, t);
    NodesInsert(l.timeouts, t);
    PoolHead(l.free);
  }

  lemma PoolHead(pool: seq<nat>)
    requires pool != []
    ensures multiset(pool) == multiset{pool[0]} + multiset(pool[1..])
  {
    assert pool == [pool[0]] + pool[1..];
  }

  lemma AddAllocates(l: Loop, t: Timeout)
    requires Valid(l) && t.node == l.nodes
    requires Find(l.timeouts, t.callback, t.arg) == |l.timeouts|
    ensures Valid(l.(timeouts := Insert(l.timeouts, t), nodes := l.nodes + 1))
    ensures Table(Insert(l.timeouts, t)) == Table(l.timeouts)[(t.callback, t.arg) := (t.when, t.queue)]
  {
    RescheduledRefines(l.timeouts, t);
    NodesInsert(l.timeouts, t);
  }

  /** p's entries stand in q at increasing places. */
  ghost predicate InOrder(p: seq<Timeout>, q: seq<Timeout>) {
    exists f: seq<nat> ::
      && |f| == |p| && (forall i :: 0 <= i < |f| ==> f[i] < |q| && q[f[i]] == p[i])
      && forall i, j :: 0 <= i < j < |f| ==> f[i] < f[j]
  }

  lemma KeptInOrder(q: seq<Timeout>, keep: Timeout -> bool)
    ensures InOrder(Kept(q, keep), q)
  {
    var f := KeptIndex(q, keep);
  }

  /** A deletion keeps the loop valid, restricts the table to the kept entries and keeps their order. */
  lemma {:induction false} DiscardRefines(l: Loop, keep: Timeout -> bool)
    requires Valid(l)
    ensures Valid(Discard(l, keep)) && InOrder(Discard(l, keep).timeouts, l.timeouts)
    ensures forall t :: t in Discard(l, keep).timeouts <==> t in l.timeouts && keep(t)
    ensures forall k :: k in Table(Discard(l, keep).timeouts) ==>
      k in Table(l.timeouts) && Table(Discard(l, keep).timeouts)[k] == Table(l.timeouts)[k]
  {
    hide InOrder;
    KeptInOrder(l.timeouts, keep);
    NodesKept(l.timeouts, keep);
    KeptOrdered(l.timeouts, keep);
    KeptMembers(l.timeouts, keep);
    TableIs(l.timeouts);
    TableIs(Kept(l.timeouts, keep));
    var f := KeptIndex(l.timeouts, keep);
    assert multiset(l.free + Dropped(l.timeouts, keep)) == multiset(l.free) + multiset(Dropped(l.timeouts, keep));
  }

  lemma {:induction false} KeptMembers(q: seq<Timeout>, keep: Timeout -> bool)
    ensures forall t :: t in Kept(q, keep) <==> t in q && keep(t)
  {
    if q != [] {
      KeptMembers(q[1..], keep);
      assert q == [q[0]] + q[1..];
    }
  }

  /** Firing keeps the loop valid, takes a timer whose time has passed, and no pending timer was
      due before it; among equals it is the one that was added first (see AddIsStable). */
  lemma {:induction false} FireRefines(l: Loop, now: int)
    requires Valid(l) && CanFire(l, now)
    ensures Valid(BeginFire(l))
    ensures var t := l.timeouts[0];
      && t.when < now
      && (forall u :: u in l.timeouts ==> t.when <= u.when)
      && Table(BeginFire(l).timeouts) == Table(l.timeouts) - {(t.callback, t.arg)}
  {
    var q := l.timeouts;
    assert RemoveAt(q, 0) == q[1..];
    RemoveRefines(q, 0);
    assert NodesOf(q) == [q[0].node] + NodesOf(q[1..]);
  }

  lemma InsertSplits(r: seq<Timeout>, t: Timeout) returns (a: seq<Timeout>, b: seq<Timeout>)
    requires Sorted(r)
    ensures Insert(r, t) == a + [t] + b && a + b == r
    ensures forall i :: 0 <= i < |a| ==> a[i].when <= t.when
    ensures forall i :: 0 <= i < |b| ==> t.when < b[i].when
  {
    var k := Place(r, t.when);
    a, b := r[..k], r[k..];
  }

  /** Insertion is stable: the list is the old one without the key's own entry, split around the
      new entry so that it comes after everything due no later and before everything due later. */
  lemma AddIsStable(q: seq<Timeout>, t: Timeout) returns (a: seq<Timeout>, b: seq<Timeout>)
    requires Sorted(q) && UniqueKeys(q)
    ensures Rescheduled(q, t) == a + [t] + b
    ensures var i := Find(q, t.callback, t.arg); a + b == if i < |q| then RemoveAt(q, i) else q
    ensures forall i :: 0 <= i < |a| ==> a[i].when <= t.when
    ensures forall i :: 0 <= i < |b| ==> t.when < b[i].when
  {
    var i := Find(q, t.callback, t.arg);
    if i < |q| {
      RemoveRefines(q, i);
      a, b := InsertSplits(RemoveAt(q, i), t);
    } else {
      a, b := InsertSplits(q, t);
    }
  }

  // ----- whole runs

  datatype Op =
    | OpAdd(queue: int, now: int, delay: int, callback: Callback, arg: nat)
    | OpDelete(queue: int, which: Option<Callback>, arg: nat)
    | OpDeleteExcept(queue: int, arg: nat, callbacks: seq<Callback>)
    | OpBegin(now: int)
    | OpEnd

  /** An operation the program can perform here: a callback runs one at a time and only when due,
      and between OpBegin and OpEnd the callback may add and delete as it likes. */
  predicate Enabled(l: Loop, op: Op) {
    match op
    case OpBegin(now) => CanFire(l, now)
    case OpEnd => l.inFlight.Some?
    case _ => true
  }

  function Apply(l: Loop, op: Op): Loop
    requires Enabled(l, op)
  {
    match op
    case OpAdd(queue, now, delay, cb, arg) => Add(l, queue, now, delay, cb, arg).0
    case OpDelete(queue, which, arg) => Delete(l, queue, which, arg)
    case OpDeleteExcept(queue, arg, callbacks) => DeleteExcept(l, queue, arg, callbacks)
    case OpBegin(now) => BeginFire(l)
    case OpEnd => EndFire(l)
  }

  ghost predicate Run(l: Loop, ops: seq<Op>, l': Loop)
    decreases |ops|
  {
    if ops == [] then l == l'
    else Enabled(l, ops[0]) && Run(Apply(l, ops[0]), ops[1..], l')
  }

  lemma {:induction false} StepKeepsValid(l: Loop, op: Op)
    requires Valid(l) && Enabled(l, op)
    ensures Valid(Apply(l, op))
  {
    match op
    case OpAdd(queue, now, delay, cb, arg) => AddRefines(l, queue, now, delay, cb, arg);
    case OpDelete(queue, which, arg) => DiscardRefines(l, KeepUnless(queue, which, arg));
    case OpDeleteExcept(queue, arg, callbacks) => DiscardRefines(l, KeepOnly(queue, arg, callbacks));
    case OpBegin(now) => FireRefines(l, now);
    case OpEnd =>
      assert multiset(l.free + [l.inFlight.value]) == multiset(l.free) + multiset{l.inFlight.value};
  }

  /** Under every sequence of adds, deletes and firings, re-entrant ones included, the list stays
      sorted with unique keys and every node is in exactly one of queue, pool or flight. */
  lemma {:induction false} EveryRunKeepsValid(l: Loop, ops: seq<Op>, l': Loop)
    requires Valid(l) && Run(l, ops, l')
    ensures Valid(l')
    decreases |ops|
  {
    if ops != [] {
      StepKeepsValid(l, ops[0]);
      EveryRunKeepsValid(Apply(l, ops[0]), ops[1..], l');
    }
  }
}
