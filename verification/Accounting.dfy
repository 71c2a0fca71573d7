/** How many frames it takes to give a list of pages a frame each: those frames, and
    one for every table on the way to a page that was not there before. */
module Accounting {
  import opened Bytes
  import opened Paging
  import opened Ownership
  import opened Frame
  import opened Radix
  import opened Population

  // ----- page by page -----

  function Front(pages: seq<Path>): seq<Path>
    requires pages != []
  {
    pages[..|pages| - 1]
  }

  function Final(pages: seq<Path>): Path
    requires pages != []
  {
    pages[|pages| - 1]
  }

  /** How many tables on the way to `q` are on the way to none of `pages`. */
  function Nearest(pages: seq<Path>, q: Path): (n: nat)
    ensures n <= 3
  {
    if pages == [] then 3 else Min(Nearest(Front(pages), q), Unshared(Final(pages), q))
  }

  /** The frames taken when the pages are filled one after another from memory `m`. */
  ghost function PagesCost(m: Mem, root: nat, pages: seq<Path>): nat {
    if pages == [] then 0
    else PagesCost(m, root, Front(pages)) + 1
         + Min(Missing(m, 4, root, Final(pages)), Nearest(Front(pages), Final(pages)))
  }

  /** From `s0` to `s` exactly these pages of `root` were filled, as far as frames go:
      what they cost is spent, and their tables are there for every later walk. */
  ghost predicate Spent(s0: State, s: State, root: nat, pages: seq<Path>) {
    && FreeCount(s) == FreeCount(s0) - PagesCost(s0.mem, root, pages)
    && forall q :: Missing(s.mem, 4, root, q) == Min(Missing(s0.mem, 4, root, q), Nearest(pages, q))
  }

  lemma SpentNothing(s: State, root: nat)
    ensures Spent(s, s, root, [])
  {
    hide FreeCount, Missing;
    forall q ensures Missing(s.mem, 4, root, q) == Min(Missing(s.mem, 4, root, q), Nearest([], q)) {
      MissingBound(s.mem, 4, root, q);
    }
  }

  lemma Snoc(pages: seq<Path>, p: Path)
    ensures Front(pages + [p]) == pages && Final(pages + [p]) == p
  {
  }

  /** One page more. */
  lemma SpentStep(s0: State, s: State, s': State, root: nat, pages: seq<Path>, p: Path)
    requires Spent(s0, s, root, pages) && Populated(s, s', root, p, 1)
    requires FreeCount(s') == FreeCount(s) - 1 - Missing(s.mem, 4, root, p)
    ensures Spent(s0, s', root, pages + [p])
  {
    hide FreeCount, Missing, Unshared;
    Snoc(pages, p);
    forall q ensures Missing(s'.mem, 4, root, q) == Min(Missing(s0.mem, 4, root, q), Nearest(pages + [p], q)) {
      UnsharedBound(p, q);
      assert Max(Unshared(p, q), 1 - 1) == Unshared(p, q);
    }
  }

  lemma UnsharedBound(p: Path, q: Path)
    ensures 0 <= Unshared(p, q) <= 3
  {
  }

  /** What the next page needs is what it adds to the cost. */
  lemma NextCost(s0: State, s: State, root: nat, pages: seq<Path>, p: Path)
    requires Spent(s0, s, root, pages)
    ensures PagesCost(s0.mem, root, pages + [p]) - FreeCount(s0) == 1 + Missing(s.mem, 4, root, p) - FreeCount(s)
  {
    hide FreeCount, Missing, Nearest;
    Snoc(pages, p);
  }

  // ----- lists of pages one after another -----

  lemma {:induction false} NearestAppend(a: seq<Path>, b: seq<Path>, q: Path)
    ensures Nearest(a + b, q) == Min(Nearest(a, q), Nearest(b, q))
  {
    if b == [] {
      assert a + b == a;
    } else {
      assert a + b == (a + Front(b)) + [Final(b)];
      Snoc(a + Front(b), Final(b));
      NearestAppend(a, Front(b), q);
    }
  }

  lemma {:induction false} CostAppend(m: Mem, root: nat, a: seq<Path>, b: seq<Path>, m': Mem)
    requires forall q :: Missing(m', 4, root, q) == Min(Missing(m, 4, root, q), Nearest(a, q))
    ensures PagesCost(m, root, a + b) == PagesCost(m, root, a) + PagesCost(m', root, b)
  {
    hide Missing, Nearest;
    if b == [] {
      assert a + b == a;
    } else {
      assert a + b == (a + Front(b)) + [Final(b)];
      Snoc(a + Front(b), Final(b));
      CostAppend(m, root, a, Front(b), m');
      NearestAppend(a, Front(b), Final(b));
    }
  }

  lemma SpentTransitive(s0: State, s1: State, s2: State, root: nat, a: seq<Path>, b: seq<Path>)
    requires Spent(s0, s1, root, a) && Spent(s1, s2, root, b)
    ensures Spent(s0, s2, root, a + b)
  {
    hide FreeCount, Missing, Nearest, PagesCost;
    CostAppend(s0.mem, root, a, b, s1.mem);
    forall q ensures Missing(s2.mem, 4, root, q) == Min(Missing(s0.mem, 4, root, q), Nearest(a + b, q)) {
      NearestAppend(a, b, q);
    }
  }

  /** What a later list costs, seen from before the earlier one. */
  lemma LaterCost(s0: State, s1: State, root: nat, a: seq<Path>, b: seq<Path>)
    requires Spent(s0, s1, root, a)
    ensures PagesCost(s1.mem, root, b) - FreeCount(s1) == PagesCost(s0.mem, root, a + b) - FreeCount(s0)
  {
    hide FreeCount, Missing, Nearest, PagesCost;
    CostAppend(s0.mem, root, a, b, s1.mem);
  }

  lemma {:induction false} PrefixCost(m: Mem, root: nat, a: seq<Path>, b: seq<Path>)
    ensures PagesCost(m, root, a) <= PagesCost(m, root, a + b)
  {
    hide Missing, Nearest;
    if b == [] {
      assert a + b == a;
    } else {
      assert a + b == (a + Front(b)) + [Final(b)];
      Snoc(a + Front(b), Final(b));
      PrefixCost(m, root, a, Front(b));
    }
  }

  // ----- the same count without an order -----

  /** The indices of the tables below the root on the way to a page. */
  function Way(p: Path): seq<Index> { [p.i4, p.i3, p.i2] }

  /** The tables on the way to some of the pages: each is known by the indices that
      lead to it. */
  function Tables(pages: seq<Path>): set<seq<Index>> {
    set p, n | p in pages && 1 <= n <= 3 :: Way(p)[..n]
  }

  /** Those of them that memory `m` lacks. */
  ghost function Lacking(m: Mem, root: nat, pages: seq<Path>): set<seq<Index>> {
    set p, n | p in pages && 1 <= n <= 3 && Missing(m, 4, root, p) > 3 - n :: Way(p)[..n]
  }

  lemma SharedWay(p: Path, q: Path, n: nat)
    requires 1 <= n <= 3
    ensures Unshared(p, q) <= 3 - n <==> Way(p)[..n] == Way(q)[..n]
  {
    assert Way(p)[..n] == Way(q)[..n] ==> Way(p)[..n][0] == Way(q)[..n][0];
    assert n >= 2 && Way(p)[..n] == Way(q)[..n] ==> Way(p)[..n][1] == Way(q)[..n][1];
    assert n >= 3 && Way(p)[..n] == Way(q)[..n] ==> Way(p)[..n][2] == Way(q)[..n][2];
  }

  lemma {:induction false} NearestIs(pages: seq<Path>, p: Path, n: nat)
    requires 1 <= n <= 3
    ensures Nearest(pages, p) <= 3 - n <==> exists q :: q in pages && Way(q)[..n] == Way(p)[..n]
  {
    hide Way, Unshared;
    if pages != [] {
      NearestIs(Front(pages), p, n);
      SharedWay(Final(pages), p, n);
      assert pages == Front(pages) + [Final(pages)];
      assert forall q :: q in pages <==> q in Front(pages) || q == Final(pages);
    }
  }

  /** Whether a table is there depends only on the indices that lead to it. */
  lemma SharedMissing(m: Mem, root: nat, p: Path, q: Path, n: nat)
    requires 1 <= n <= 3 && Way(p)[..n] == Way(q)[..n]
    ensures Missing(m, 4, root, p) > 3 - n <==> Missing(m, 4, root, q) > 3 - n
  {
    SharedWay(p, q, n);
    hide Entry, Present, Big, Target;
    assert p.At(4) == p.i4 && p.At(3) == p.i3 && p.At(2) == p.i2;
    assert q.At(4) == q.i4 && q.At(3) == q.i3 && q.At(2) == q.i2;
    StepMissing(m, 4, root, p);
    StepMissing(m, 4, root, q);
    var t3 := Target(Entry(m, root, p.i4));
    StepMissing(m, 3, t3, p);
    StepMissing(m, 3, t3, q);
    var t2 := Target(Entry(m, t3, p.i3));
    StepMissing(m, 2, t2, p);
    StepMissing(m, 2, t2, q);
  }

  lemma StepMissing(m: Mem, level: nat, t: nat, p: Path)
    requires 2 <= level <= 4
    ensures var e := Entry(m, t, p.At(level));
            Missing(m, level, t, p) ==
              if Big(e) then 0 else if !Present(e) then level - 1 else Missing(m, level - 1, Target(e), p)
    ensures Missing(m, level, t, p) <= level - 1
    ensures Missing(m, level - 1, Target(Entry(m, t, p.At(level))), p) <= level - 2
  {
    hide Entry, Present, Big, Target;
    MissingBound(m, level, t, p);
    MissingBound(m, level - 1, Target(Entry(m, t, p.At(level))), p);
  }

  /** The order of the pages does not matter, only how many there are and which tables
      lead to them: a frame a page, and one for each distinct table that was lacking. */
  lemma {:induction false} CostIs(m: Mem, root: nat, pages: seq<Path>)
    ensures PagesCost(m, root, pages) == |pages| + |Lacking(m, root, pages)|
  {
    hide Missing, Nearest, Unshared;
    if pages == [] {
      assert Lacking(m, root, pages) == {};
    } else {
      var front, p := Front(pages), Final(pages);
      CostIs(m, root, front);
      LackingStep(m, root, front, p);
      assert pages == front + [p];
    }
  }

  lemma LackingStep(m: Mem, root: nat, front: seq<Path>, p: Path)
    ensures |Lacking(m, root, front + [p])| == |Lacking(m, root, front)| +
              Min(Missing(m, 4, root, p), Nearest(front, p))
  {
    hide Missing, Nearest, Unshared;
    MissingBound(m, 4, root, p);
    var k := Min(Missing(m, 4, root, p), Nearest(front, p));
    var old', new' := Lacking(m, root, front), NewTables(p, k);
    forall n | 1 <= n <= 3
      ensures Way(p)[..n] in new' <==> Missing(m, 4, root, p) > 3 - n && Way(p)[..n] !in old' {
      NearestIs(front, p, n);
      LackingAt(m, root, front, p, n);
      assert Way(p)[..n] in new' <==> k > 3 - n by { NewTablesAt(p, k, n); }
    }
    assert Lacking(m, root, front + [p]) == old' + new' by { hide Way; LackingSplit(m, root, front, p, new'); }
    assert old' !! new' by {
      forall w | w in new' ensures w !in old' {
        var n :| 1 <= n <= 3 && 3 - n < k && w == Way(p)[..n];
      }
    }
    NewTablesSize(p, k);
  }

  /** The last `k` tables on the way to `p`. */
  function NewTables(p: Path, k: int): set<seq<Index>> {
    set n | 1 <= n <= 3 && 3 - n < k :: Way(p)[..n]
  }

  lemma NewTablesAt(p: Path, k: int, n: nat)
    requires 1 <= n <= 3
    ensures Way(p)[..n] in NewTables(p, k) <==> 3 - n < k
  {
    if Way(p)[..n] in NewTables(p, k) {
      var n' :| 1 <= n' <= 3 && 3 - n' < k && Way(p)[..n] == Way(p)[..n'];
      assert |Way(p)[..n]| == |Way(p)[..n']|;
    }
  }

  lemma NewTablesSize(p: Path, k: nat)
    requires k <= 3
    ensures |NewTables(p, k)| == k
  {
    var a, b, c := Way(p)[..1], Way(p)[..2], Way(p)[..3];
    assert |a| == 1 && |b| == 2 && |c| == 3;
    assert NewTables(p, 0) == {};
    assert NewTables(p, 1) == {c};
    assert NewTables(p, 2) == {b, c};
    assert NewTables(p, 3) == {a, b, c};
  }

  lemma LackingAt(m: Mem, root: nat, pages: seq<Path>, p: Path, n: nat)
    requires 1 <= n <= 3
    ensures Way(p)[..n] in Lacking(m, root, pages) <==>
            Missing(m, 4, root, p) > 3 - n && exists q :: q in pages && Way(q)[..n] == Way(p)[..n]
  {
    hide Missing;
    if Way(p)[..n] in Lacking(m, root, pages) {
      var q, n' :| q in pages && 1 <= n' <= 3 && Missing(m, 4, root, q) > 3 - n' && Way(q)[..n'] == Way(p)[..n];
      assert |Way(q)[..n']| == |Way(p)[..n]|;
      SharedMissing(m, root, q, p, n);
    }
    if q :| q in pages && Way(q)[..n] == Way(p)[..n] {
      SharedMissing(m, root, q, p, n);
    }
  }

  lemma LackingSplit(m: Mem, root: nat, front: seq<Path>, p: Path, new': set<seq<Index>>)
    requires forall n :: 1 <= n <= 3 ==>
               (Way(p)[..n] in new' <==> Missing(m, 4, root, p) > 3 - n && Way(p)[..n] !in Lacking(m, root, front))
    requires forall w :: w in new' ==> exists n :: 1 <= n <= 3 && w == Way(p)[..n]
    ensures Lacking(m, root, front + [p]) == Lacking(m, root, front) + new'
  {
    hide Missing;
    assert forall q :: q in front + [p] <==> q in front || q == p;
  }

  /** From a fresh root every table is lacking. */
  lemma FreshCost(m: Mem, root: nat, pages: seq<Path>)
    requires forall p :: p in pages ==> Missing(m, 4, root, p) == 3
    ensures PagesCost(m, root, pages) == |pages| + |Tables(pages)|
  {
    hide Missing, PagesCost, Way;
    CostIs(m, root, pages);
    assert Lacking(m, root, pages) == Tables(pages);
  }
}
