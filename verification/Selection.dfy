/** Which slot src/scheduler.c picks: 128 strict priority slots, then a round-robin
    scan of 127 of the other 128, and what that means for waiting tasks. */
module Selection {

  const PRIORITIES: nat := 128
  const ROBINS: nat := 128
  const WINDOW: nat := 127  // the scan leaves out the slot just before the cursor

  /** Which of the 256 slots hold a task that can execute. */
  type Ready = r: seq<bool> | |r| == PRIORITIES + ROBINS witness seq(PRIORITIES + ROBINS, _ => false)
  type Cursor = c: int | 0 <= c < ROBINS

  datatype Pick = Idle | Run(slot: nat)

  function Wrap(x: nat): Cursor { x % ROBINS }

  /** The round-robin slot `k` places after the cursor. */
  function RobinSlot(c: Cursor, k: nat): (slot: nat)
    ensures PRIORITIES <= slot < PRIORITIES + ROBINS
  {
    PRIORITIES + Wrap(c + k)
  }

  predicate RobinReady(r: Ready, u: Cursor) { r[PRIORITIES + u] }

  // The recursive functions below also name `|r|` in their termination measure, so
  // that the verifier does not unfold them all the way for constant arguments.

  /** The first ready priority slot from `i` on. */
  function FirstPriority(r: Ready, i: nat): Pick
    requires i <= PRIORITIES
    decreases PRIORITIES - i, |r|
  {
    if i == PRIORITIES then Idle else if r[i] then Run(i) else FirstPriority(r, i + 1)
  }

  /** The first ready round-robin slot at distance `k` or more from the cursor,
      within the window. */
  function FirstRobin(r: Ready, c: Cursor, k: nat): Pick
    requires k <= WINDOW
    decreases WINDOW - k, |r|
  {
    if k == WINDOW then Idle else if r[RobinSlot(c, k)] then Run(RobinSlot(c, k)) else FirstRobin(r, c, k + 1)
  }

  function Select(r: Ready, c: Cursor): Pick {
    match FirstPriority(r, 0)
    case Run(i) => Run(i)
    case Idle => FirstRobin(r, c, 0)
  }

  function NextCursor(r: Ready, c: Cursor): Cursor {
    match Select(r, c)
    case Run(i) => if PRIORITIES <= i < PRIORITIES + ROBINS then Wrap(i - PRIORITIES + 1) else c
    case Idle => c
  }

  // ----- what a selection is -----

  lemma {:induction false} PriorityIsFirst(r: Ready, i: nat)
    requires i <= PRIORITIES
    ensures match FirstPriority(r, i)
            case Run(j) => i <= j < PRIORITIES && r[j] && forall l :: i <= l < j ==> !r[l]
            case Idle => forall l :: i <= l < PRIORITIES ==> !r[l]
    decreases PRIORITIES - i, |r|
  {
    if i < PRIORITIES && !r[i] {
      PriorityIsFirst(r, i + 1);
    }
  }

  lemma {:induction false} RobinIsFirst(r: Ready, c: Cursor, k: nat)
    requires k <= WINDOW
    ensures match FirstRobin(r, c, k)
            case Run(j) => exists d :: k <= d < WINDOW && j == RobinSlot(c, d) && r[j]
                                       && forall l :: k <= l < d ==> !r[RobinSlot(c, l)]
            case Idle => forall l :: k <= l < WINDOW ==> !r[RobinSlot(c, l)]
    decreases WINDOW - k, |r|
  {
    if k < WINDOW && !r[RobinSlot(c, k)] {
      RobinIsFirst(r, c, k + 1);
    }
  }

  /** A selection is the lowest ready priority slot; if there is none, the first ready
      round-robin slot of the window; idle exactly if there is none either. */
  lemma SelectionIs(r: Ready, c: Cursor)
    ensures match Select(r, c)
            case Run(j) =>
              && j < PRIORITIES + ROBINS && r[j]
              && if j < PRIORITIES then forall l :: 0 <= l < j ==> !r[l]
                 else && (forall l :: 0 <= l < PRIORITIES ==> !r[l])
                      && exists d :: 0 <= d < WINDOW && j == RobinSlot(c, d) && forall l :: 0 <= l < d ==>
                          !r[RobinSlot(c, l)]
            case Idle =>
              && (forall l :: 0 <= l < PRIORITIES ==> !r[l])
              && (forall l :: 0 <= l < WINDOW ==> !r[RobinSlot(c, l)])
  {
    PriorityIsFirst(r, 0);
    RobinIsFirst(r, c, 0);
  }

  // ----- distance from the cursor -----

  function Distance(c: Cursor, t: Cursor): Cursor { (t - c) % ROBINS }

  lemma AtDistance(c: Cursor, t: Cursor)
    ensures Wrap(c + Distance(c, t)) == t && RobinSlot(c, Distance(c, t)) == PRIORITIES + t
  {
  }

  lemma DistanceOf(c: Cursor, k: nat)
    requires k < ROBINS
    ensures Distance(c, Wrap(c + k)) == k
  {
  }

  lemma WrapAdd(x: nat, y: nat)
    ensures Wrap(Wrap(x) + y) == Wrap(x + y)
  {
  }

  /** Moving the cursor just past a slot nearer than `t` brings `t` that much nearer. */
  lemma DistanceAfter(c: Cursor, d: nat, t: Cursor)
    requires d < Distance(c, t)
    ensures Distance(Wrap(c + d + 1), t) == Distance(c, t) - d - 1
  {
    AtDistance(c, t);
    WrapAdd(c + d + 1, Distance(c, t) - d - 1);
    DistanceOf(Wrap(c + d + 1), Distance(c, t) - d - 1);
  }

  /** After a robin was picked the cursor is just past it. */
  lemma CursorAfter(r: Ready, c: Cursor, d: nat)
    requires Select(r, c) == Run(RobinSlot(c, d))
    ensures NextCursor(r, c) == Wrap(c + d + 1)
  {
    WrapAdd(c + d, 1);
  }

  ghost predicate NoPriority(r: Ready) { forall l :: 0 <= l < PRIORITIES ==> !r[l] }

  /** Any selection made while `t` is ready and no priority slot is: `t` itself, or
      another robin that leaves `t` strictly nearer the cursor than before, or idle,
      and that only if `t` is just before the cursor and no other robin is ready. */
  lemma OneSelection(r: Ready, c: Cursor, t: Cursor)
    requires NoPriority(r) && RobinReady(r, t)
    ensures match Select(r, c)
            case Run(j) =>
              && PRIORITIES <= j < PRIORITIES + ROBINS && r[j]
              && (j != PRIORITIES + t ==> Distance(NextCursor(r, c), t) < Distance(c, t))
              && (j == PRIORITIES + t ==> NextCursor(r, c) == Wrap(t + 1))
            case Idle =>
              && Distance(c, t) == WINDOW && NextCursor(r, c) == c
              && forall u: Cursor :: u != t ==> !RobinReady(r, u)
  {
    hide Wrap, Distance;
    SelectionIs(r, c);
    AtDistance(c, t);
    var dt := Distance(c, t);
    match Select(r, c) {
      case Run(j) =>
        var d :| 0 <= d < WINDOW && j == RobinSlot(c, d) && forall l :: 0 <= l < d ==> !r[RobinSlot(c, l)];
        assert d <= dt;
        CursorAfter(r, c, d);
        if d < dt {
          DistanceAfter(c, d, t);
        }
        if d == dt {
          WrapAdd(c + d, 1);
        }
      case Idle =>
        forall u: Cursor | u != t ensures !RobinReady(r, u) {
          AtDistance(c, u);
        }
    }
  }

  // ----- runs -----

  /** The selections of consecutive calls, the k-th made with ready set `rs[k]`. */
  function Picks(rs: seq<Ready>, c: Cursor): (ps: seq<Pick>)
    ensures |ps| == |rs|
  {
    if rs == [] then [] else [Select(rs[0], c)] + Picks(rs[1..], NextCursor(rs[0], c))
  }

  function CountRuns(ps: seq<Pick>): nat {
    if ps == [] then 0 else (if ps[0].Run? then 1 else 0) + CountRuns(ps[1..])
  }

  ghost predicate Waiting(rs: seq<Ready>, t: Cursor) {
    forall k :: 0 <= k < |rs| ==> NoPriority(rs[k]) && RobinReady(rs[k], t)
  }

  /** Bounded waiting, whatever other tasks become ready or stop being ready: as long
      as a ready robin has not run, at most 127 other selections have, and no more
      than its distance from the cursor if that was at most 126. */
  lemma {:induction false} BoundedWaiting(rs: seq<Ready>, c: Cursor, t: Cursor)
    requires Waiting(rs, t) && Run(PRIORITIES + t) !in Picks(rs, c)
    ensures CountRuns(Picks(rs, c)) <= Distance(c, t) <= WINDOW
    decreases |rs|
  {
    if rs != [] {
      var ps := Picks(rs, c);
      assert ps[0] == Select(rs[0], c) && ps[1..] == Picks(rs[1..], NextCursor(rs[0], c));
      assert Waiting(rs[1..], t) by {
        forall k | 0 <= k < |rs[1..]| ensures NoPriority(rs[1..][k]) && RobinReady(rs[1..][k], t) {
          assert rs[1..][k] == rs[k + 1];
        }
      }
      OneSelection(rs[0], c, t);
      BoundedWaiting(rs[1..], NextCursor(rs[0], c), t);
    }
  }

  ghost predicate Alone(r: Ready, t: Cursor) {
    r[PRIORITIES + t] && forall i :: 0 <= i < |r| && i != PRIORITIES + t ==> !r[i]
  }

  /** The window's cost: a robin that is ready alone runs once at most. After that the
      cursor stands just behind it, and every further call picks idle for as long as
      no other task becomes ready. */
  lemma {:induction false} LoneRobinStarves(rs: seq<Ready>, c: Cursor, t: Cursor)
    requires forall k :: 0 <= k < |rs| ==> Alone(rs[k], t)
    ensures forall k :: 0 <= k < |rs| ==>
              Picks(rs, c)[k] == if k == 0 && Distance(c, t) < WINDOW then Run(PRIORITIES + t) else Idle
    decreases |rs|
  {
    if rs != [] {
      var c' := NextCursor(rs[0], c);
      assert Alone(rs[0], t);
      OneSelection(rs[0], c, t);
      if Distance(c, t) < WINDOW {
        assert Select(rs[0], c) == Run(PRIORITIES + t);
        JustBehind(t);
      } else {
        LoneIsIdle(rs[0], c, t);
      }
      forall k | 0 <= k < |rs[1..]| ensures Alone(rs[1..][k], t) {
        assert rs[1..][k] == rs[k + 1];
      }
      LoneRobinStarves(rs[1..], c', t);
      assert Picks(rs, c)[1..] == Picks(rs[1..], c');
      forall k | 0 <= k < |rs|
        ensures Picks(rs, c)[k] == if k == 0 && Distance(c, t) < WINDOW then Run(PRIORITIES + t) else Idle {
        if k > 0 { assert Picks(rs, c)[k] == Picks(rs[1..], c')[k - 1]; }
      }
    }
  }

  lemma JustBehind(t: Cursor)
    ensures Distance(Wrap(t + 1), t) == WINDOW
  {
  }

  lemma LoneIsIdle(r: Ready, c: Cursor, t: Cursor)
    requires Alone(r, t) && Distance(c, t) == WINDOW
    ensures Select(r, c) == Idle
  {
    hide Wrap, Distance;
    SelectionIs(r, c);
    AtDistance(c, t);
    forall d | 0 <= d < WINDOW ensures !r[RobinSlot(c, d)] {
      DistanceOf(c, d);
    }
  }

  // ----- when a waiting robin is served -----

  /** Another round-robin task than the one in `t` is ready. */
  predicate Others(r: Ready, t: Cursor) { exists u: Cursor :: u != t && RobinReady(r, u) }

  lemma RestWaits(rs: seq<Ready>, t: Cursor)
    requires Waiting(rs, t) && rs != []
    ensures NoPriority(rs[0]) && RobinReady(rs[0], t) && Waiting(rs[1..], t)
  {
    hide NoPriority, RobinReady;
    forall k | 0 <= k < |rs[1..]| ensures NoPriority(rs[1..][k]) && RobinReady(rs[1..][k], t) {
      assert rs[1..][k] == rs[k + 1];
    }
  }

  /** A ready robin inside the window is picked after at most as many other calls as it
      is places away from the cursor. */
  lemma {:induction false} ServedWithin(rs: seq<Ready>, c: Cursor, t: Cursor)
    requires Waiting(rs, t) && Distance(c, t) < WINDOW && Distance(c, t) < |rs|
    ensures Run(PRIORITIES + t) in Picks(rs, c)
    decreases |rs|
  {
    hide Distance, Select, NextCursor, Waiting;
    RestWaits(rs, t);
    OneSelection(rs[0], c, t);
    assert Picks(rs, c)[0] == Select(rs[0], c) && Picks(rs, c)[1..] == Picks(rs[1..], NextCursor(rs[0], c));
    if Select(rs[0], c) != Run(PRIORITIES + t) {
      ServedWithin(rs[1..], NextCursor(rs[0], c), t);
    }
  }

  /** The one just before the cursor is outside the window, but another ready robin, at
      any call `j`, moves the cursor; then it is picked within one more round. */
  lemma {:induction false} ServedAfterOther(rs: seq<Ready>, c: Cursor, t: Cursor, j: nat)
    requires Waiting(rs, t) && j + ROBINS <= |rs| && Others(rs[j], t)
    ensures Run(PRIORITIES + t) in Picks(rs, c)
    decreases |rs|
  {
    hide Distance, Select, NextCursor, Waiting;
    if Distance(c, t) < WINDOW {
      ServedWithin(rs, c, t);
    } else {
      var c' := NextCursor(rs[0], c);
      RestWaits(rs, t);
      OneSelection(rs[0], c, t);
      assert Picks(rs, c)[0] == Select(rs[0], c) && Picks(rs, c)[1..] == Picks(rs[1..], c');
      if Select(rs[0], c) == Idle {
        ServedAfterOther(rs[1..], c', t, j - 1);
      } else if Select(rs[0], c) != Run(PRIORITIES + t) {
        ServedWithin(rs[1..], c', t);
      }
    }
  }

  /** In no other case is it ever picked: then every call picks idle. */
  lemma NeverServed(rs: seq<Ready>, c: Cursor, t: Cursor)
    requires Waiting(rs, t) && Distance(c, t) == WINDOW
    requires forall k :: 0 <= k < |rs| ==> !Others(rs[k], t)
    ensures forall k :: 0 <= k < |rs| ==> Picks(rs, c)[k] == Idle
  {
    hide Distance;
    forall k | 0 <= k < |rs| ensures Alone(rs[k], t) {
      assert NoPriority(rs[k]) && !Others(rs[k], t);
      forall i | 0 <= i < |rs[k]| && i != PRIORITIES + t ensures !rs[k][i] {
        if i >= PRIORITIES { assert !RobinReady(rs[k], i - PRIORITIES); }
      }
    }
    LoneRobinStarves(rs, c, t);
  }

  /** With a fixed ready set a waiting robin is ever picked exactly if it is not the slot
      just before the cursor or is not ready alone; and then within 128 calls. */
  lemma ServedIff(r: Ready, c: Cursor, t: Cursor)
    requires NoPriority(r) && RobinReady(r, t)
    ensures Distance(c, t) < WINDOW || Others(r, t) <==> exists n: nat :: Run(PRIORITIES + t) in Picks(Repeat(r, n), c)
    ensures Distance(c, t) < WINDOW || Others(r, t) <==> Run(PRIORITIES + t) in Picks(Repeat(r, ROBINS), c)
  {
    hide Distance, Picks, NoPriority, RobinReady, Others, Repeat;
    if Distance(c, t) < WINDOW || Others(r, t) {
      ServedFixed(r, c, t);
    } else {
      forall n: nat ensures Run(PRIORITIES + t) !in Picks(Repeat(r, n), c) {
        NeverServed(Repeat(r, n), c, t);
      }
    }
  }

  lemma ServedFixed(r: Ready, c: Cursor, t: Cursor)
    requires NoPriority(r) && RobinReady(r, t) && (Distance(c, t) < WINDOW || Others(r, t))
    ensures Run(PRIORITIES + t) in Picks(Repeat(r, ROBINS), c)
  {
    hide Distance, Picks, NoPriority, RobinReady, Others, Repeat;
    var rs := Repeat(r, ROBINS);
    assert rs[0] == r;
    if Distance(c, t) < WINDOW {
      ServedWithin(rs, c, t);
    } else {
      ServedAfterOther(rs, c, t, 0);
    }
  }

  function OnlySlot(i: nat): Ready { seq(PRIORITIES + ROBINS, k => k == i) }

  /** At boot the cursor is 0. A task alone in slot 128, the first of the round-robin
      slots, runs once and never again; one alone in slot 255, the last, never runs. */
  lemma BootStarves(n: nat)
    ensures forall k :: 0 <= k < n ==> Picks(Repeat(OnlySlot(128), n), 0)[k] == if k == 0 then Run(128) else Idle
    ensures forall k :: 0 <= k < n ==> Picks(Repeat(OnlySlot(255), n), 0)[k] == Idle
  {
    hide Picks, Repeat;
    LoneRobinStarves(Repeat(OnlySlot(128), n), 0, 0);
    LoneRobinStarves(Repeat(OnlySlot(255), n), 0, 127);
  }

  // ----- exact round robin -----

  /** The ready robins in cyclic order, from distance `d` of cursor `c` on. */
  function Order(r: Ready, c: Cursor, d: nat): (o: seq<nat>)
    requires d <= ROBINS
    decreases ROBINS - d, |r|
  {
    if d == ROBINS then []
    else if r[RobinSlot(c, d)] then [RobinSlot(c, d)] + Order(r, c, d + 1)
    else Order(r, c, d + 1)
  }

  /** The order lists every ready robin, each once. */
  lemma {:induction false} OrderIsAll(r: Ready, c: Cursor, d: nat)
    requires d <= ROBINS
    ensures forall s :: s in Order(r, c, d) <==> (exists k :: d <= k < ROBINS && s == RobinSlot(c, k) && r[s])
    ensures forall i, j :: 0 <= i < j < |Order(r, c, d)| ==> Order(r, c, d)[i] != Order(r, c, d)[j]
    decreases ROBINS - d, |r|
  {
    if d < ROBINS {
      OrderIsAll(r, c, d + 1);
      if r[RobinSlot(c, d)] {
        hide Wrap, Distance;
        forall k | d + 1 <= k < ROBINS ensures RobinSlot(c, k) != RobinSlot(c, d) {
          DistanceOf(c, k);
          DistanceOf(c, d);
        }
      }
    }
  }

  function Slots(ps: seq<Pick>): seq<nat> {
    if ps == [] then [] else (if ps[0].Run? then [ps[0].slot] else []) + Slots(ps[1..])
  }

  function Repeat(r: Ready, n: nat): (rs: seq<Ready>)
    ensures |rs| == n && forall k :: 0 <= k < n ==> rs[k] == r
  {
    if n == 0 then [] else [r] + Repeat(r, n - 1)
  }

  /** `e` is the first ready distance from `d` on. */
  ghost predicate FirstReady(r: Ready, c: Cursor, d: nat, e: nat) {
    d <= e < ROBINS && r[RobinSlot(c, e)] && forall l :: d <= l < e ==> !r[RobinSlot(c, l)]
  }

  lemma {:induction false} HeadOfOrder(r: Ready, c: Cursor, d: nat) returns (e: nat)
    requires d <= ROBINS && Order(r, c, d) != []
    ensures FirstReady(r, c, d, e) && Order(r, c, d) == [RobinSlot(c, e)] + Order(r, c, e + 1)
    decreases ROBINS - d, |r|
  {
    if r[RobinSlot(c, d)] {
      e := d;
    } else {
      e := HeadOfOrder(r, c, d + 1);
    }
  }

  /** The first ready robin from distance `d` on is the next one picked. */
  lemma PickedAt(r: Ready, c: Cursor, d: nat, e: nat)
    requires NoPriority(r) && FirstReady(r, c, d, e) && e - d < WINDOW
    ensures Select(r, Wrap(c + d)) == Run(RobinSlot(c, e)) && NextCursor(r, Wrap(c + d)) == Wrap(c + e + 1)
  {
    hide Wrap;
    var c' := Wrap(c + d);
    SelectionIs(r, c');
    forall l | 0 <= l <= e - d ensures RobinSlot(c', l) == RobinSlot(c, d + l) { WrapAdd(c + d, l); }
    assert r[RobinSlot(c', e - d)];
    var j := Select(r, c').slot;
    var x :| 0 <= x < WINDOW && j == RobinSlot(c', x) && forall l :: 0 <= l < x ==> !r[RobinSlot(c', l)];
    assert x <= e - d;
    assert r[RobinSlot(c, d + x)];
    CursorAfter(r, c', e - d);
    WrapAdd(c + d, e - d + 1);
  }

  /** With a fixed ready set and no ready priority slot, as many calls as there are
      ready robins from distance `d` on pick exactly those, in cyclic order. */
  lemma {:induction false} RoundRobinFrom(r: Ready, c: Cursor, d: nat)
    requires NoPriority(r) && d <= ROBINS && (d > 0 || |Order(r, c, 0)| >= 2)
    ensures Slots(Picks(Repeat(r, |Order(r, c, d)|), Wrap(c + d))) == Order(r, c, d)
    decreases ROBINS - d, |r|
  {
    hide Wrap, RobinSlot, Select, NextCursor;
    var o := Order(r, c, d);
    if o != [] {
      var e := HeadOfOrder(r, c, d);
      assert Order(r, c, ROBINS) == [];
      PickedAt(r, c, d, e);
      RoundRobinFrom(r, c, e + 1);
      PicksRepeat(r, |o|, Wrap(c + d));
    }
  }

  lemma PicksRepeat(r: Ready, n: nat, c: Cursor)
    requires n > 0
    ensures Picks(Repeat(r, n), c) == [Select(r, c)] + Picks(Repeat(r, n - 1), NextCursor(r, c))
  {
    assert Repeat(r, n)[1..] == Repeat(r, n - 1);
  }

  /** `o` lists every ready robin, each once. */
  ghost predicate ListsReady(r: Ready, o: seq<nat>) {
    && (forall u: Cursor :: RobinReady(r, u) <==> Robin(u) in o)
    && (forall i, j :: 0 <= i < j < |o| ==> o[i] != o[j])
  }

  function Robin(u: Cursor): nat { PRIORITIES + u }

  lemma OrderListsReady(r: Ready, c: Cursor)
    ensures ListsReady(r, Order(r, c, 0))
  {
    hide Order, Wrap, RobinSlot, Distance;
    OrderIsAll(r, c, 0);
    forall u: Cursor ensures RobinReady(r, u) <==> Robin(u) in Order(r, c, 0) {
      AtDistance(c, u);
    }
  }

  /** Exact round robin: with a fixed ready set of at least two robins and no ready
      priority slot, as many consecutive calls as there are ready robins pick each of
      them exactly once, in cyclic order, wherever the cursor stands. */
  lemma RoundRobin(r: Ready, c: Cursor)
    requires NoPriority(r) && |Order(r, c, 0)| >= 2
    ensures var picked := Slots(Picks(Repeat(r, |Order(r, c, 0)|), c));
            picked == Order(r, c, 0) && ListsReady(r, picked)
  {
    assert Wrap(c + 0) == c;
    hide *;
    RoundRobinFrom(r, c, 0);
    OrderListsReady(r, c);
  }
}
