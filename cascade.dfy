/**
 * The entries of the timing wheel and what one tick and one registration do
 * to the wheel's contents, as functions of the wheel's state (later.go:
 * `task`, `timePanel.process`, `timeWheel.register`).
 *
 * A level's `prev` is the level just below it (k - 1) and its `next` the
 * one just above it (k + 1): level 0 has no prev, the last level no next.
 */
module Cascade {
  import opened Coordinates

  /** A callback is opaque: the model knows it only by an id. */
  type Callback = nat

  /**
   * What a slot holds: at the finest level a bare callback, at a coarser
   * level a `task` with the indices still to go on every finer level; the
   * last index is the one of the level just below.
   */
  datatype Entry = Ready(cb: Callback) | Pending(rest: seq<nat>, cb: Callback)

  /** A slot's list, front first. An absent (nil) list is the empty queue. */
  type Queue = seq<Entry>

  /** The cursors and slots of every level, finest first, and the callbacks run so far. */
  datatype WheelState = WheelState(idx: seq<nat>, slots: seq<seq<Queue>>, fired: seq<Callback>)

  /** The shape an entry must have to sit on level k. */
  predicate EntryFits(num: seq<nat>, k: nat, e: Entry) {
    if k == 0 then e.Ready?
    else e.Pending? && |e.rest| == k && k <= |num| && forall j :: 0 <= j < k ==> e.rest[j] < num[j]
  }

  predicate QueueFits(num: seq<nat>, k: nat, q: Queue) {
    forall i :: 0 <= i < |q| ==> EntryFits(num, k, q[i])
  }

  predicate LevelFits(num: seq<nat>, k: nat, level: seq<Queue>) {
    forall s :: 0 <= s < |level| ==> QueueFits(num, k, level[s])
  }

  /**
   * The wheel invariant: positive slot counts, cursors in range, one queue
   * per slot, and every entry shaped for the level it sits on.
   */
  predicate Inv(num: seq<nat>, w: WheelState) {
    && Positive(num)
    && InRange(num, w.idx)
    && |w.slots| == |num|
    && forall k :: 0 <= k < |num| ==> LevelOk(num, k, w.slots[k])
  }

  /** Level k holds one well-shaped queue per slot. */
  predicate LevelOk(num: seq<nat>, k: nat, level: seq<Queue>)
    requires k < |num|
  {
    |level| == num[k] && LevelFits(num, k, level)
  }

  lemma InvCursor(num: seq<nat>, w: WheelState, k: nat, c: nat)
    requires Inv(num, w) && k < |num| && c < num[k]
    ensures Inv(num, w.(idx := w.idx[k := c]))
  {
  }

  lemma InvLevel(num: seq<nat>, w: WheelState, k: nat, level: seq<Queue>, fired: seq<Callback>)
    requires Inv(num, w) && k < |num| && LevelOk(num, k, level)
    ensures Inv(num, WheelState(w.idx, w.slots[k := level], fired))
  {
  }

  lemma LevelOkDrain(num: seq<nat>, k: nat, level: seq<Queue>, i: nat)
    requires k < |num| && LevelOk(num, k, level) && i < |level|
    ensures LevelOk(num, k, level[i := []])
  {
  }

  /**
   * The entry that coordinates `rest` leave in the slot named by their last
   * index: the bare callback when that was the only index, otherwise a task
   * carrying the indices before it.
   */
  function Settle(rest: seq<nat>, cb: Callback): Entry
    requires |rest| > 0
  {
    var n := |rest| - 1;
    if n == 0 then Ready(cb) else Pending(rest[..n], cb)
  }

  /**
   * The settled entry keeps its callback; it is bare exactly when one index
   * was left, and otherwise carries every index but the last one, which
   * names the slot it goes to.
   */
  lemma SettleShape(rest: seq<nat>, cb: Callback)
    requires |rest| > 0
    ensures var e := Settle(rest, cb);
      && e.cb == cb
      && (e.Ready? <==> |rest| == 1)
      && (e.Pending? ==> e.rest + [rest[|rest| - 1]] == rest)
  {
  }

  /** The callback ids of a queue, front first. */
  function Cbs(q: Queue): seq<Callback> {
    seq(|q|, i requires 0 <= i < |q| => q[i].cb)
  }

  // ---------------------------------------------------------------------
  // Draining a slot of the finest level

  /**
   * The callbacks the finest level runs when it drains `q`: front to back,
   * an element that is not a bare callback being skipped.
   */
  function Fire(q: Queue): (r: seq<Callback>)
    ensures |r| <= |q|
  {
    if q == [] then [] else (if q[0].Ready? then [q[0].cb] else []) + Fire(q[1..])
  }

  /** Whatever the drain runs comes from the slot, even on a badly shaped level. */
  lemma {:induction false} FireFromSlot(q: Queue)
    ensures multiset(Fire(q)) <= multiset(Cbs(q))
  {
    if q != [] {
      FireFromSlot(q[1..]);
      assert Cbs(q) == [q[0].cb] + Cbs(q[1..]);
    }
  }

  /** On a well-shaped finest level every entry runs, in insertion order. */
  lemma {:induction false} FireInOrder(num: seq<nat>, q: Queue)
    requires QueueFits(num, 0, q)
    ensures Fire(q) == Cbs(q)
  {
    if q != [] {
      FireInOrder(num, q[1..]);
      assert Cbs(q) == [q[0].cb] + Cbs(q[1..]);
    }
  }

  // ---------------------------------------------------------------------
  // Draining a slot of a coarser level into the level below

  /** Every task in q has an index left that names a slot of a level `width` wide. */
  predicate Demotable(width: nat, q: Queue) {
    forall i :: 0 <= i < |q| && q[i].Pending? ==>
      0 < |q[i].rest| && q[i].rest[|q[i].rest| - 1] < width
  }

  /** One element taken off a coarse slot: a task goes to the back of the slot its last index names. */
  function DemoteOne(prev: seq<Queue>, e: Entry): (r: seq<Queue>)
    requires e.Pending? ==> 0 < |e.rest| && e.rest[|e.rest| - 1] < |prev|
    ensures |r| == |prev|
  {
    match e
    case Ready(_) => prev
    case Pending(rest, cb) =>
      var j := rest[|rest| - 1];
      prev[j := prev[j] + [Settle(rest, cb)]]
  }

  /** The level below after the slot `q` is drained into it, front to back. */
  function Demote(prev: seq<Queue>, q: Queue): (r: seq<Queue>)
    requires Demotable(|prev|, q)
    ensures |r| == |prev|
    decreases |q|
  {
    if q == [] then prev else Demote(DemoteOne(prev, q[0]), q[1..])
  }

  /** What element e leaves in slot j of the level below: its settled entry if it is a task naming j. */
  function Lands(e: Entry, j: nat): Queue {
    if e.Pending? && 0 < |e.rest| && e.rest[|e.rest| - 1] == j then [Settle(e.rest, e.cb)] else []
  }

  /** The entries of q that land in slot j of the level below, in q's order. */
  function Bucket(q: Queue, j: nat): Queue {
    if q == [] then [] else Lands(q[0], j) + Bucket(q[1..], j)
  }

  /** Slot j of the level below gains exactly what e lands there, at its back. */
  lemma DemoteOneAt(prev: seq<Queue>, e: Entry, j: nat)
    requires e.Pending? ==> 0 < |e.rest| && e.rest[|e.rest| - 1] < |prev|
    requires j < |prev|
    ensures DemoteOne(prev, e)[j] == prev[j] + Lands(e, j)
  {
  }

  /**
   * Demotion keeps order: each slot of the level below keeps what it held
   * and gets, at its back, the tasks of q that name it, in q's order.
   */
  lemma DemoteAppends(prev: seq<Queue>, q: Queue)
    requires Demotable(|prev|, q)
    ensures forall j :: 0 <= j < |prev| ==> Demote(prev, q)[j] == prev[j] + Bucket(q, j)
  {
    forall j | 0 <= j < |prev|
      ensures Demote(prev, q)[j] == prev[j] + Bucket(q, j)
    {
      DemoteAppendsAt(prev, q, j);
    }
  }

  lemma {:induction false} DemoteAppendsAt(prev: seq<Queue>, q: Queue, j: nat)
    requires Demotable(|prev|, q) && j < |prev|
    ensures Demote(prev, q)[j] == prev[j] + Bucket(q, j)
    decreases |q|
  {
    if q != [] {
      var e, rest := q[0], q[1..];
      var p1 := DemoteOne(prev, e);
      assert Demotable(|p1|, rest);
      DemoteOneAt(prev, e, j);
      DemoteAppendsAt(p1, rest, j);
      var a, b, c := prev[j], Lands(e, j), Bucket(rest, j);
      assert (a + b) + c == a + (b + c);
    }
  }

  /** A task of level k > 0 demoted into level k - 1 has the shape of level k - 1. */
  lemma SettleFits(num: seq<nat>, k: nat, e: Entry)
    requires 0 < k && EntryFits(num, k, e)
    ensures EntryFits(num, k - 1, Settle(e.rest, e.cb))
  {
  }

  /** Draining a well-shaped slot of level k keeps level k - 1 well shaped. */
  lemma {:induction false} DemoteFits(num: seq<nat>, k: nat, prev: seq<Queue>, q: Queue)
    requires 0 < k < |num| && |prev| == num[k - 1]
    requires QueueFits(num, k, q) && LevelFits(num, k - 1, prev)
    ensures Demotable(|prev|, q)
    ensures LevelFits(num, k - 1, Demote(prev, q))
    decreases |q|
  {
    if q != [] {
      SettleFits(num, k, q[0]);
      var p1 := DemoteOne(prev, q[0]);
      DemoteFits(num, k, p1, q[1..]);
    }
  }

  // ---------------------------------------------------------------------
  // The callbacks held by the wheel

  function LevelCbs(level: seq<Queue>): multiset<Callback> {
    if level == [] then multiset{} else multiset(Cbs(level[0])) + LevelCbs(level[1..])
  }

  /** The callbacks scheduled on the wheel, with multiplicity. */
  function Scheduled(slots: seq<seq<Queue>>): multiset<Callback> {
    if slots == [] then multiset{} else LevelCbs(slots[0]) + Scheduled(slots[1..])
  }

  /** Replacing one slot of a level replaces its callbacks in the level's total. */
  lemma {:induction false} LevelCbsUpdate(level: seq<Queue>, s: nat, x: Queue)
    requires s < |level|
    ensures LevelCbs(level[s := x]) + multiset(Cbs(level[s])) == LevelCbs(level) + multiset(Cbs(x))
  {
    if s == 0 {
      assert level[s := x][1..] == level[1..];
      assert LevelCbs(level[s := x]) == multiset(Cbs(x)) + LevelCbs(level[1..]);
      Swap(multiset(Cbs(x)), LevelCbs(level[1..]), multiset(Cbs(level[0])));
    } else {
      var l' := level[s := x];
      LevelCbsUpdate(level[1..], s - 1, x);
      assert l'[1..] == level[1..][s - 1 := x];
      assert level[1..][s - 1] == level[s];
      assert LevelCbs(l') == multiset(Cbs(level[0])) + LevelCbs(l'[1..]);
      assert LevelCbs(level) == multiset(Cbs(level[0])) + LevelCbs(level[1..]);
      Prepend(multiset(Cbs(level[0])), LevelCbs(l'[1..]), multiset(Cbs(level[s])), LevelCbs(level[1..]), multiset(Cbs(x)));
    }
  }

  /** Replacing one level replaces its callbacks in the wheel's total. */
  lemma {:induction false} ScheduledUpdate(slots: seq<seq<Queue>>, k: nat, x: seq<Queue>)
    requires k < |slots|
    ensures Scheduled(slots[k := x]) + LevelCbs(slots[k]) == Scheduled(slots) + LevelCbs(x)
  {
    if k == 0 {
      assert slots[k := x][1..] == slots[1..];
      assert Scheduled(slots[k := x]) == LevelCbs(x) + Scheduled(slots[1..]);
      Swap(LevelCbs(x), Scheduled(slots[1..]), LevelCbs(slots[0]));
    } else {
      var s' := slots[k := x];
      ScheduledUpdate(slots[1..], k - 1, x);
      assert s'[1..] == slots[1..][k - 1 := x];
      assert slots[1..][k - 1] == slots[k];
      assert Scheduled(s') == LevelCbs(slots[0]) + Scheduled(s'[1..]);
      assert Scheduled(slots) == LevelCbs(slots[0]) + Scheduled(slots[1..]);
      Prepend(LevelCbs(slots[0]), Scheduled(s'[1..]), LevelCbs(slots[k]), Scheduled(slots[1..]), LevelCbs(x));
    }
  }

  /** Appending one entry to a slot adds its callback to the level. */
  lemma AppendCbs(level: seq<Queue>, s: nat, e: Entry)
    requires s < |level|
    ensures LevelCbs(level[s := level[s] + [e]]) == LevelCbs(level) + multiset{e.cb}
  {
    var c := Cbs(level[s]);
    LevelCbsUpdate(level, s, level[s] + [e]);
    assert Cbs(level[s] + [e]) == c + [e.cb];
    assert multiset(c + [e.cb]) == multiset(c) + multiset{e.cb};
    assert LevelCbs(level[s := level[s] + [e]]) + multiset(c) == (LevelCbs(level) + multiset{e.cb}) + multiset(c);
    Cancel(LevelCbs(level[s := level[s] + [e]]), LevelCbs(level) + multiset{e.cb}, multiset(c));
  }

  /** Demoting a slot that holds only tasks moves all of its callbacks to the level below. */
  lemma {:induction false} DemoteConserves(prev: seq<Queue>, q: Queue)
    requires Demotable(|prev|, q)
    requires forall i :: 0 <= i < |q| ==> q[i].Pending?
    ensures LevelCbs(Demote(prev, q)) == LevelCbs(prev) + multiset(Cbs(q))
    decreases |q|
  {
    if q != [] {
      var e := q[0];
      var j := e.rest[|e.rest| - 1];
      var p1 := DemoteOne(prev, e);
      assert LevelCbs(p1) == LevelCbs(prev) + multiset{e.cb} by {
        AppendCbs(prev, j, Settle(e.rest, e.cb));
      }
      assert LevelCbs(Demote(p1, q[1..])) == LevelCbs(p1) + multiset(Cbs(q[1..])) by {
        DemoteConserves(p1, q[1..]);
      }
      assert multiset(Cbs(q)) == multiset{e.cb} + multiset(Cbs(q[1..])) by {
        assert Cbs(q) == [e.cb] + Cbs(q[1..]);
      }
      Assoc(LevelCbs(prev), multiset{e.cb}, multiset(Cbs(q[1..])));
    }
  }

  // ---------------------------------------------------------------------
  // One tick: timePanel.process on level k

  /**
   * The wheel after `process` on level k: advance the cursor, wrapping to 0;
   * on a wrap, process the level above first if there is one (BeforeDrain);
   * then drain the slot under the cursor, running its callbacks at the
   * finest level and demoting its tasks one level down elsewhere.
   */
  function Processed(num: seq<nat>, w: WheelState, k: nat): (r: WheelState)
    requires Inv(num, w) && k < |num|
    ensures Inv(num, r)
    ensures forall j :: 0 <= j < k ==> r.idx[j] == w.idx[j]
    ensures forall j :: 0 <= j < k - 1 ==> r.slots[j] == w.slots[j]
    ensures k > 0 ==> r.fired == w.fired
    decreases |num| - k, 1
  {
    Drained(num, BeforeDrain(num, w, k), k)
  }

  /**
   * The second half of `process` on level k: the slot under the cursor is
   * emptied; at the finest level its callbacks run, front first; at a
   * coarser level its tasks move to the level below, front first.
   */
  function Drained(num: seq<nat>, w: WheelState, k: nat): (r: WheelState)
    requires Inv(num, w) && k < |num|
    ensures Inv(num, r)
    ensures r.idx == w.idx && r.slots[k][w.idx[k]] == []
    ensures forall j :: 0 <= j < |num| && j != k && j + 1 != k ==> r.slots[j] == w.slots[j]
    ensures k > 0 ==> r.fired == w.fired
  {
    var i := w.idx[k];
    var q := w.slots[k][i];
    var drained := w.slots[k][i := []];
    LevelOkDrain(num, k, w.slots[k], i);
    if k == 0 then
      InvLevel(num, w, 0, drained, w.fired + Fire(q));
      WheelState(w.idx, w.slots[0 := drained], w.fired + Fire(q))
    else
      var w3 := WheelState(w.idx, w.slots[k := drained], w.fired);
      InvLevel(num, w, k, drained, w.fired);
      DemoteFits(num, k, w3.slots[k - 1], q);
      InvLevel(num, w3, k - 1, Demote(w3.slots[k - 1], q), w.fired);
      WheelState(w.idx, w3.slots[k - 1 := Demote(w3.slots[k - 1], q)], w.fired)
  }

  /** Drained on a coarser level, spelled out: slot k emptied into level k - 1. */
  lemma DrainedCoarse(num: seq<nat>, w: WheelState, k: nat)
    requires Inv(num, w) && 0 < k < |num|
    ensures var i := w.idx[k];
      && Demotable(|w.slots[k - 1]|, w.slots[k][i])
      && Drained(num, w, k)
         == WheelState(w.idx, w.slots[k := w.slots[k][i := []]][k - 1 := Demote(w.slots[k - 1], w.slots[k][i])], w.fired)
  {
    DemoteFits(num, k, w.slots[k - 1], w.slots[k][w.idx[k]]);
  }

  /**
   * The wheel at the moment `process` on level k reaches its own slot: the
   * cursor advanced (0 on a wrap) and, on a wrap with a level above, that
   * level processed. Nothing below level k has changed yet.
   */
  function BeforeDrain(num: seq<nat>, w: WheelState, k: nat): (w2: WheelState)
    requires Inv(num, w) && k < |num|
    ensures Inv(num, w2)
    ensures w2.idx[k] == if w.idx[k] + 1 == num[k] then 0 else w.idx[k] + 1
    ensures forall j :: 0 <= j < k ==> w2.idx[j] == w.idx[j] && w2.slots[j] == w.slots[j]
    ensures w2.fired == w.fired
    decreases |num| - k, 0
  {
    var c := w.idx[k] + 1;
    var w1 := w.(idx := w.idx[k := if c == num[k] then 0 else c]);
    InvCursor(num, w, k, if c == num[k] then 0 else c);
    if c == num[k] && k + 1 < |num| then Processed(num, w1, k + 1) else w1
  }

  /**
   * The cursor of level k moves one slot on, modulo the level's size; the
   * level above moves too exactly when level k wraps to 0 and has a level
   * above, and otherwise no coarser cursor moves.
   */
  lemma {:induction false} ProcessedCursor(num: seq<nat>, w: WheelState, k: nat)
    requires Inv(num, w) && k < |num|
    ensures var r := Processed(num, w, k);
      && r.idx[k] == (w.idx[k] + 1) % num[k]
      && (w.idx[k] + 1 == num[k] && k + 1 < |num| ==> r.idx[k + 1] == (w.idx[k + 1] + 1) % num[k + 1])
      && (w.idx[k] + 1 < num[k] || k + 1 == |num| ==> forall j :: k < j < |num| ==> r.idx[j] == w.idx[j])
    decreases |num| - k
  {
    var c := w.idx[k] + 1;
    var r := Processed(num, w, k);
    assert r.idx == BeforeDrain(num, w, k).idx;
    if c == num[k] {
      DivModUnique(c, num[k], 1, 0);
      if k + 1 < |num| {
        ProcessedCursor(num, w.(idx := w.idx[k := 0]), k + 1);
      }
    } else {
      DivModUnique(c, num[k], 0, c);
    }
  }

  /**
   * The cursors form a mixed-radix counter, finest digit first: processing
   * level k adds one to the counter formed by levels k and above, modulo
   * the number of their positions.
   */
  lemma {:induction false} ProcessedCounts(num: seq<nat>, w: WheelState, k: nat)
    requires Inv(num, w) && k < |num|
    ensures Eval(Processed(num, w, k).idx[k..], num[k..])
         == (Eval(w.idx[k..], num[k..]) + 1) % Product(num[k..])
    decreases |num| - k, 1
  {
    var r := Processed(num, w, k);
    var n, c := num[k], w.idx[k];
    var T, P := Eval(w.idx[k + 1..], num[k + 1..]), Product(num[k + 1..]);
    var T' := Eval(r.idx[k + 1..], num[k + 1..]);
    EvalStep(r.idx, num, k);
    EvalStep(w.idx, num, k);
    ProductStep(num, k);
    EvalBound(w.idx[k + 1..], num[k + 1..]);
    ProcessedCursor(num, w, k);
    ProcessedCountsAbove(num, w, k);
    CounterStep(c, n, T, P, r.idx[k], T');
  }

  /**
   * The levels above k, read as one counter, stay put unless level k wraps,
   * and then count one on.
   */
  lemma {:induction false} ProcessedCountsAbove(num: seq<nat>, w: WheelState, k: nat)
    requires Inv(num, w) && k < |num|
    ensures var T, T' := Eval(w.idx[k + 1..], num[k + 1..]), Eval(Processed(num, w, k).idx[k + 1..], num[k + 1..]);
      && (w.idx[k] + 1 < num[k] ==> T' == T)
      && (w.idx[k] + 1 == num[k] ==> T' == (T + 1) % Product(num[k + 1..]))
    decreases |num| - k, 0
  {
    var r := Processed(num, w, k);
    var c := w.idx[k];
    var T, P := Eval(w.idx[k + 1..], num[k + 1..]), Product(num[k + 1..]);
    var T' := Eval(r.idx[k + 1..], num[k + 1..]);
    if c + 1 < num[k] {
      ProcessedCursor(num, w, k);
      assert r.idx[k + 1..] == w.idx[k + 1..];
    } else if c + 1 == num[k] && k + 1 < |num| {
      var w1 := w.(idx := w.idx[k := 0]);
      ProcessedCounts(num, w1, k + 1);
      assert r.idx == BeforeDrain(num, w, k).idx == Processed(num, w1, k + 1).idx;
      assert w1.idx[k + 1..] == w.idx[k + 1..];
    } else if c + 1 == num[k] {
      assert T == 0 && T' == 0 && P == 1;
      DivModUnique(T + 1, P, 1, 0);
    }
  }

  /**
   * One step of a mixed-radix counter, on its lowest digit c of radix n with
   * the higher digits worth T out of P: the digit moves on, and the higher
   * part moves on exactly when the digit wraps.
   */
  lemma CounterStep(c: nat, n: nat, t: nat, p: nat, c': nat, t': nat)
    requires c < n && t < p
    requires c' == (c + 1) % n
    requires c + 1 < n ==> t' == t
    requires c + 1 == n ==> t' == (t + 1) % p
    ensures c' + n * t' == (c + n * t + 1) % (n * p)
  {
    MulMono(n, t, p - 1);
    assert n * (p - 1) == n * p - n;
    if c + 1 < n {
      DivModUnique(c + 1, n, 0, c + 1);
      DivModUnique(c + 1 + n * t, n * p, 0, c + 1 + n * t);
    } else {
      DivModUnique(c + 1, n, 1, 0);
      var x := n * (t + 1);
      assert c + n * t + 1 == x;
      DivModUnique(x, n, t + 1, 0);
      ModProduct(x, n, p);
    }
  }

  /** The highest level a process on level k reaches: it climbs while the level wraps. */
  function Top(num: seq<nat>, idx: seq<nat>, k: nat): (t: nat)
    requires |idx| == |num| && k < |num|
    ensures k <= t < |num|
    decreases |num| - k
  {
    if idx[k] + 1 == num[k] && k + 1 < |num| then Top(num, idx, k + 1) else k
  }

  lemma {:induction false} TopFrame(num: seq<nat>, a: seq<nat>, b: seq<nat>, k: nat)
    requires |a| == |b| == |num| && k < |num|
    requires forall j :: k <= j < |num| ==> a[j] == b[j]
    ensures Top(num, a, k) == Top(num, b, k)
    decreases |num| - k
  {
    if a[k] + 1 == num[k] && k + 1 < |num| {
      TopFrame(num, a, b, k + 1);
    }
  }

  /**
   * After a process on level k, the slot under the cursor of every level it
   * visited (k up to Top) is empty, and the levels above those it visited
   * are untouched.
   */
  lemma {:induction false} ProcessedVisits(num: seq<nat>, w: WheelState, k: nat)
    requires Inv(num, w) && k < |num|
    ensures var r := Processed(num, w, k);
            var t := Top(num, w.idx, k);
      && (forall j :: k <= j <= t ==> r.slots[j][r.idx[j]] == [])
      && (forall j :: t < j < |num| ==> r.idx[j] == w.idx[j] && r.slots[j] == w.slots[j])
    decreases |num| - k
  {
    var w2 := BeforeDrain(num, w, k);
    assert Processed(num, w, k) == Drained(num, w2, k);
    if w.idx[k] + 1 == num[k] && k + 1 < |num| {
      var w1 := w.(idx := w.idx[k := 0]);
      assert w2 == Processed(num, w1, k + 1);
      ProcessedVisits(num, w1, k + 1);
      TopFrame(num, w.idx, w1.idx, k + 1);
    }
  }

  /**
   * No entry is lost or duplicated by a tick: what leaves the slots is
   * exactly what runs. On a coarser level (k > 0) nothing runs, so the
   * scheduled callbacks are unchanged.
   */
  lemma {:induction false} ProcessedConserves(num: seq<nat>, w: WheelState, k: nat)
    requires Inv(num, w) && k < |num|
    ensures var r := Processed(num, w, k);
      Scheduled(r.slots) + multiset(r.fired) == Scheduled(w.slots) + multiset(w.fired)
    decreases |num| - k
  {
    var w2 := BeforeDrain(num, w, k);
    assert Processed(num, w, k) == Drained(num, w2, k);
    if w.idx[k] + 1 == num[k] && k + 1 < |num| {
      var w1 := w.(idx := w.idx[k := 0]);
      assert w2 == Processed(num, w1, k + 1);
      ProcessedConserves(num, w1, k + 1);
    }
    DrainedConserves(num, w2, k);
  }

  /** Draining the slot under the cursor loses no callback and invents none. */
  lemma DrainedConserves(num: seq<nat>, w: WheelState, k: nat)
    requires Inv(num, w) && k < |num|
    ensures var r := Drained(num, w, k);
      Scheduled(r.slots) + multiset(r.fired) == Scheduled(w.slots) + multiset(w.fired)
  {
    var r := Drained(num, w, k);
    var i := w.idx[k];
    var q := w.slots[k][i];
    DrainConserves(w.slots, k, i);
    var s1 := w.slots[k := w.slots[k][i := []]];
    if k == 0 {
      assert r.slots == s1 && r.fired == w.fired + Fire(q);
      assert multiset(r.fired) == multiset(w.fired) + multiset(Cbs(q)) by {
        FireInOrder(num, q);
      }
    } else {
      var below := Demote(w.slots[k - 1], q);
      assert r.slots == s1[k - 1 := below] && r.fired == w.fired;
      assert LevelCbs(below) == LevelCbs(s1[k - 1]) + multiset(Cbs(q)) by {
        DemoteFits(num, k, w.slots[k - 1], q);
        DemoteConserves(w.slots[k - 1], q);
      }
      ReceiveConserves(s1, k - 1, below, multiset(Cbs(q)));
    }
  }

  /** Emptying slot i of level k takes exactly that slot's callbacks off the wheel. */
  lemma DrainConserves(slots: seq<seq<Queue>>, k: nat, i: nat)
    requires k < |slots| && i < |slots[k]|
    ensures Scheduled(slots[k := slots[k][i := []]]) + multiset(Cbs(slots[k][i])) == Scheduled(slots)
  {
    var drained := slots[k][i := []];
    var Q := multiset(Cbs(slots[k][i]));
    LevelCbsUpdate(slots[k], i, []);
    assert LevelCbs(drained) + Q == LevelCbs(slots[k]);
    ScheduledUpdate(slots, k, drained);
    Rebalance(Scheduled(slots[k := drained]), LevelCbs(slots[k]), Scheduled(slots), LevelCbs(drained), Q);
  }

  /** A level that gains the callbacks e puts exactly e onto the wheel. */
  lemma ReceiveConserves(slots: seq<seq<Queue>>, k: nat, level: seq<Queue>, e: multiset<Callback>)
    requires k < |slots| && LevelCbs(level) == LevelCbs(slots[k]) + e
    ensures Scheduled(slots[k := level]) == Scheduled(slots) + e
  {
    ScheduledUpdate(slots, k, level);
    Shift(Scheduled(slots[k := level]), LevelCbs(slots[k]), Scheduled(slots), e);
  }

  // ---------------------------------------------------------------------
  // Registration: timeWheel.register

  /**
   * The wheel after registering `cb` for `v` ticks: the coordinates of v
   * name a level n (the last one listed) and a slot on it, and the entry
   * settled from them goes to the back of that slot.
   */
  function Registered(num: seq<nat>, w: WheelState, v: nat, cb: Callback): (r: WheelState)
    requires Inv(num, w) && |num| > 0
    ensures Inv(num, r)
  {
    var rest := Coords(num, w.idx, v);
    var n := |rest| - 1;
    var j := rest[n];
    w.(slots := w.slots[n := w.slots[n][j := w.slots[n][j] + [Settle(rest, cb)]]])
  }

  /**
   * Registration adds exactly one callback, at the back of the slot the
   * coordinates name on level |rest| - 1, and changes no cursor and no other
   * slot.
   */
  lemma RegisteredAddsOne(num: seq<nat>, w: WheelState, v: nat, cb: Callback)
    requires Inv(num, w) && |num| > 0
    ensures var r := Registered(num, w, v, cb);
            var rest := Coords(num, w.idx, v);
            var n := |rest| - 1;
      && r.idx == w.idx && r.fired == w.fired
      && Scheduled(r.slots) == Scheduled(w.slots) + multiset{cb}
      && r.slots[n][rest[n]] == w.slots[n][rest[n]] + [Settle(rest, cb)]
      && (forall k, s :: 0 <= k < |num| && 0 <= s < num[k] && (k != n || s != rest[n]) ==>
            r.slots[k][s] == w.slots[k][s])
  {
    var rest := Coords(num, w.idx, v);
    var n := |rest| - 1;
    var level := w.slots[n][rest[n] := w.slots[n][rest[n]] + [Settle(rest, cb)]];
    assert Scheduled(w.slots[n := level]) == Scheduled(w.slots) + multiset{cb} by {
      AppendCbs(w.slots[n], rest[n], Settle(rest, cb));
      ReceiveConserves(w.slots, n, level, multiset{cb});
    }
  }

  // ---------------------------------------------------------------------
  // Multiset bookkeeping
  //
  // The conservation lemmas above add and cancel multisets of callbacks.
  // The solver handles one such step quickly when it is stated pointwise,
  // element by element, and slowly when it has to find it among many
  // facts, so each step it needs is spelled out here as a small lemma.

  /** Multiset bookkeeping: a + c == b + c gives a == b. */
  lemma Cancel(a: multiset<Callback>, b: multiset<Callback>, c: multiset<Callback>)
    requires a + c == b + c
    ensures a == b
  {
    forall x
      ensures a[x] == b[x]
    {
      assert (a + c)[x] == (b + c)[x];
    }
  }

  /** Equal sums stay equal when the same multiset a is added in front. */
  lemma Prepend(a: multiset<Callback>, t: multiset<Callback>, b: multiset<Callback>,
                u: multiset<Callback>, x: multiset<Callback>)
    requires t + b == u + x
    ensures (a + t) + b == (a + u) + x
  {
    forall y
      ensures ((a + t) + b)[y] == ((a + u) + x)[y]
    {
      assert (t + b)[y] == (u + x)[y];
    }
  }

  /** Multiset bookkeeping: the outer summands of (a + t) + b commute. */
  lemma Swap(a: multiset<Callback>, t: multiset<Callback>, b: multiset<Callback>)
    ensures (a + t) + b == (b + t) + a
  {
    forall y
      ensures ((a + t) + b)[y] == ((b + t) + a)[y]
    {
    }
  }

  /** Multiset bookkeeping: addition is associative. */
  lemma Assoc(a: multiset<Callback>, b: multiset<Callback>, c: multiset<Callback>)
    ensures (a + b) + c == a + (b + c)
  {
    forall x
      ensures ((a + b) + c)[x] == (a + (b + c))[x]
    {
    }
  }

  /** Multiset bookkeeping: a + b == c + (b + e) gives a == c + e. */
  lemma Shift(a: multiset<Callback>, b: multiset<Callback>, c: multiset<Callback>, e: multiset<Callback>)
    requires a + b == c + (b + e)
    ensures a == c + e
  {
    forall x
      ensures a[x] == (c + e)[x]
    {
      assert (a + b)[x] == (c + (b + e))[x];
    }
  }

  /** Multiset bookkeeping: a + b == c + d and d + e == b give a + e == c. */
  lemma Rebalance(a: multiset<Callback>, b: multiset<Callback>, c: multiset<Callback>,
                  d: multiset<Callback>, e: multiset<Callback>)
    requires a + b == c + d && d + e == b
    ensures a + e == c
  {
    forall x
      ensures (a + e)[x] == c[x]
    {
      assert (a + b)[x] == (c + d)[x];
      assert (d + e)[x] == b[x];
    }
  }
}
