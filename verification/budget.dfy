/**
 What an operation may still log. A block the running group has logged already costs nothing;
 any other takes one of the operation's reserved blocks, and the kernel panics without one.
 */
module LogBudget {
  import opened Common
  import opened LogProtocol

  /** The blocks the header names, and how many more the operation may add to it (`rm`). */
  datatype Budget = Budget(logged: set<nat>, rm: nat)

  /** Mentioning `Weigh` opens the predicates below, which most proofs only pass along. */
  ghost predicate Weigh(g: Budget, n: nat) {
    true
  }

  /** The operation may log these blocks: enough of its budget is left for those not logged yet. */
  ghost predicate Fits(g: Budget, blocks: set<nat>) {
    forall n: nat :: Weigh(g, n) ==> |blocks - g.logged| <= g.rm
  }

  /** These blocks have been logged, at the price of those that were not logged yet. */
  ghost predicate Spent(g: Budget, blocks: set<nat>, g': Budget) {
    && Fits(g, blocks)
    && forall n: nat :: Weigh(g, n) ==>
         g'.logged == g.logged + blocks && g'.rm + |blocks - g.logged| == g.rm
  }

  lemma Subset(a: set<nat>, b: set<nat>)
    requires a <= b
    ensures |a| <= |b|
  {
    assert b == a + (b - a);
  }

  /** Fewer blocks fit where more do. */
  lemma FitsLess(g: Budget, a: set<nat>, b: set<nat>)
    requires a <= b
    ensures Fits(g, b) ==> Fits(g, a)
  {
    assert Weigh(g, 0);
    Subset(a - g.logged, b - g.logged);
  }

  lemma SpendNothing(g: Budget)
    ensures Fits(g, {}) && Spent(g, {}, g)
  {
    assert {} - g.logged == {};
    assert g.logged + {} == g.logged;
  }

  /** Logging one set of blocks and then another is logging them together, and fails when that does. */
  lemma SpendTwice(g: Budget, a: set<nat>, g': Budget, b: set<nat>)
    requires Spent(g, a, g')
    ensures Fits(g, a + b) <==> Fits(g', b)
    ensures forall g'' :: Spent(g', b, g'') ==> Spent(g, a + b, g'')
  {
    assert Weigh(g, 0) && Weigh(g', 0);
    var c, d := a - g.logged, b - (g.logged + a);
    assert (a + b) - g.logged == c + d && c !! d;
    assert g.logged + a + b == g.logged + (a + b);
  }

  lemma FitsOne(g: Budget, b: nat)
    ensures Fits(g, {b}) <==> b in g.logged || 0 < g.rm
    ensures forall g' :: Spent(g, {b}, g') <==>
              (b in g.logged && g' == g) || (b !in g.logged && 0 < g.rm && g' == Budget(g.logged + {b}, g.rm - 1))
  {
    assert Weigh(g, 0);
    assert {b} - g.logged == if b in g.logged then {} else {b};
    assert b in g.logged ==> g.logged + {b} == g.logged;
  }

  /** The blocks a header names, and an operation's budget with them. */
  function BudgetOf(s: State, t: Tid): Budget
    requires t in s.ops && s.hdr.num <= |s.hdr.blockNo|
  {
    Budget(set i | 0 <= i < s.hdr.num :: s.hdr.blockNo[i], s.ops[t])
  }

  lemma LoggedIffSlot(s: State, t: Tid, b: nat)
    requires t in s.ops && s.hdr.num <= |s.hdr.blockNo|
    ensures b in BudgetOf(s, t).logged <==> Slot(s.hdr, b) < s.hdr.num
  {
    if i :| 0 <= i < s.hdr.num && s.hdr.blockNo[i] == b {
      SlotIsFirst(s.hdr, b, 0, i);
    }
  }

  lemma HeaderGrows(s: State, s': State, t: Tid, b: nat)
    requires t in s.ops && t in s'.ops && s.hdr.num < |s.hdr.blockNo| == LOG_MAX_SIZE && b < 0x1_0000_0000
    requires s'.hdr == LogHeader(s.hdr.num + 1, s.hdr.blockNo[s.hdr.num := b])
    ensures BudgetOf(s', t).logged == BudgetOf(s, t).logged + {b}
  {
    var h, h' := s.hdr, s'.hdr;
    forall x | x in BudgetOf(s, t).logged + {b}
      ensures x in BudgetOf(s', t).logged
    {
      if x == b {
        assert h'.blockNo[h.num] == b;
      } else {
        var i :| 0 <= i < h.num && h.blockNo[i] == x;
        assert h'.blockNo[i] == x;
      }
    }
  }

  /** The budget is what the log protocol counts: `sync` has room exactly when the block fits, and spends it. */
  lemma SyncSpends(l: Layout, s: State, t: Tid, b: nat)
    requires l.Valid() && l.Home(b) && b in s.bufs && t in s.ops
    requires s.hdr.num <= |s.hdr.blockNo| == LOG_MAX_SIZE && (s.hdr.num < LOG_MAX_SIZE || s.ops[t] == 0)
    ensures SyncFits(l, s, t, b) <==> Fits(BudgetOf(s, t), {b})
    ensures SyncFits(l, s, t, b) ==>
              var s' := SyncNext(l, s, t, b);
              t in s'.ops && s'.hdr.num <= |s'.hdr.blockNo| && Spent(BudgetOf(s, t), {b}, BudgetOf(s', t))
  {
    var g := BudgetOf(s, t);
    LoggedIffSlot(s, t, b);
    FitsOne(g, b);
    if SyncFits(l, s, t, b) {
      var s' := SyncNext(l, s, t, b);
      if b in g.logged {
        assert s'.hdr == s.hdr;
      } else {
        HeaderGrows(s, s', t, b);
      }
    }
  }
}
