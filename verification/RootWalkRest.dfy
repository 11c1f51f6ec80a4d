/** Where a walk without failures comes to rest, and what it has done by then. */
module RootWalkRest {
  import opened Wrappers
  import Trust
  import opened RootWalk
  import opened RootWalkSafety
  import RootWalkTrust
  import RootWalkLag
  import opened RootWalkProgress

  // The block is less than the lag behind the head.
  ghost predicate Blocks(c: Config, s: Sys, slotNumber: nat) {
    s.finalized < |c.slots| && c.lag > 0 && c.slots[s.finalized] < slotNumber + c.lag
  }

  ghost predicate Eligible(c: Config, s: Sys, slotNumber: nat) {
    Trust.TrustedForAnyDuty(c.windows, s.index, slotNumber)
  }

  // Trusted for some duty and not for every one: such a block is replayed and never purged.
  ghost predicate Middle(c: Config, s: Sys, slotNumber: nat) {
    Eligible(c, s, slotNumber) && !Trust.TrustedForEveryDuty(c.windows, s.index, slotNumber)
  }

  // The state between two roots.
  ghost predicate Between(c: Config, s: Sys) {
    Ready(c, s) && s.phase.Idle? && s.cursor.Some?
  }

  // The next root the walk would take, but for the lag gate.
  ghost function Next(c: Config, s: Sys): Option<RootSlot>
    requires s.cursor.Some?
  {
    var stacked := NextEligible(c.windows, s.stack, s.index);
    var child := s.cursor.value.blockRoot + 1;
    if stacked.Some? then stacked
    else if child <= s.finalized && child < |c.slots| then Some(RootSlot(child, c.slots[child]))
    else None
  }

  // There is no next root or the gate does not let it through.
  ghost predicate AtRest(c: Config, s: Sys) {
    Between(c, s) && (Next(c, s).Some? ==> Blocks(c, s, Next(c, s).value.slotNumber))
  }

  lemma NextIsValid(c: Config, s: Sys)
    requires Between(c, s) && Next(c, s).Some?
    ensures ValidRootSlot(c, Next(c, s).value, s.finalized)
    ensures NextEligible(c.windows, s.stack, s.index).Some? ==>
      Next(c, s).value.slotNumber in s.stack && Eligible(c, s, Next(c, s).value.slotNumber)
  {
    var stacked := NextEligible(c.windows, s.stack, s.index);
    if stacked.Some? {
      assert ValidRootSlot(c, RootSlot(s.stack[stacked.value.slotNumber], stacked.value.slotNumber), s.finalized);
    }
  }

  // The next root, start to end.
  lemma ProcessNext(c: Config, s: Sys) returns (n: nat)
    requires Between(c, s) && !AtRest(c, s)
    ensures n > 0 && Between(c, Walk(c, s, n)) && Processed(c, s.(seen := s.finalized), Next(c, s).value, Walk(c, s, n))
  {
    NextIsValid(c, s);
    var stacked := NextEligible(c.windows, s.stack, s.index);
    if stacked.Some? {
      n := ReplayRoot(c, s, stacked.value);
    } else {
      n := ProcessChild(c, s);
    }
  }

  // ---- Resting ----

  // At rest, or while the header of a child behind the gate is awaited.
  ghost predicate Resting(c: Config, s: Sys) {
    && Ready(c, s) && s.cursor.Some?
    && (s.phase.Idle? ||
        (s.phase.AwaitChild? && s.phase.head == s.finalized && NextEligible(c.windows, s.stack, s.index).None?))
    && (Next(c, s).Some? ==> Blocks(c, s, Next(c, s).value.slotNumber))
  }

  lemma StaysAtRest(c: Config, s: Sys)
    requires Resting(c, s)
    ensures Resting(c, Advance(c, s))
  {
    AdvanceInv(c, s);
    var t := Advance(c, s);
    assert s.phase.AwaitChild? ==> s.cursor == Some(s.phase.last);
    assert s.cursor.value.blockRoot <= s.finalized < |c.slots|;
    hide Inv, NextEligible;
    assert t == s.(seen := t.seen, phase := t.phase);
  }

  lemma {:induction false} RestsForEver(c: Config, s: Sys, n: nat)
    requires Resting(c, s)
    ensures Resting(c, Walk(c, s, n))
    decreases n
  {
    hide Resting, Advance;
    if n == 0 {
    } else {
      StaysAtRest(c, s);
      RestsForEver(c, Advance(c, s), n - 1);
    }
  }

  lemma AtRestIsResting(c: Config, s: Sys)
    requires AtRest(c, s)
    ensures Resting(c, s)
  {
  }

  lemma StuckIsNotResting(c: Config, s: Sys, rs: RootSlot)
    requires StuckOn(c, s, rs)
    ensures !Resting(c, s)
  {
  }

  lemma NotBoth(c: Config, s: Sys, n: nat, rs: RootSlot)
    requires AtRest(c, s)
    ensures !StuckOn(c, Walk(c, s, n), rs)
  {
    AtRestIsResting(c, s);
    RestsForEver(c, s, n);
    hide StuckOn, Resting;
    if StuckOn(c, Walk(c, s, n), rs) {
      StuckIsNotResting(c, Walk(c, s, n), rs);
    }
  }

  // A walk that gets stuck on a block never comes to rest.
  lemma StuckNeverRests(c: Config, s: Sys, m: nat, rs: RootSlot, n: nat)
    requires StuckOn(c, Walk(c, s, m), rs)
    ensures !AtRest(c, Walk(c, s, n))
  {
    hide *;
    var k := StuckOnOneBlock(c, Walk(c, s, m), rs, n);
    var later := m + k - n;
    assert m + k == n + later;
    WalkSum(c, s, m, k);
    WalkSum(c, s, n, later);
    if AtRest(c, Walk(c, s, n)) {
      NotBoth(c, Walk(c, s, n), later, rs);
    }
  }

  // ---- What is in the way ----

  // The gate holds back a stacked block that is eligible: the walk rests once it comes to it.
  ghost predicate HoldsEligible(c: Config, s: Sys) {
    exists k :: k in s.stack && Eligible(c, s, k) && Blocks(c, s, k)
  }

  // A block between the two windows that the gate lets through and the walk comes to: a stacked one,
  // or if the walk gets past the stack any one from its next root on.
  ghost predicate InTheWay(c: Config, s: Sys, r: nat)
    requires s.cursor.Some?
  {
    && r <= s.finalized < |c.slots| && Middle(c, s, c.slots[r]) && !Blocks(c, s, c.slots[r])
    && (c.slots[r] in s.stack || (!HoldsEligible(c, s) && Next(c, s).Some? && Next(c, s).value.blockRoot <= r))
  }

  ghost predicate Clear(c: Config, s: Sys)
    requires s.cursor.Some?
  {
    forall r: nat :: !InTheWay(c, s, r)
  }

  lemma Ordered(c: Config, i: nat, j: nat)
    requires ValidConfig(c) && i < |c.slots| && j < |c.slots|
    ensures i < j <==> c.slots[i] < c.slots[j]
  {
    assert i < j ==> Before(c.slots, i, j);
    assert j < i ==> Before(c.slots, j, i);
  }

  lemma NextIsValidOrNone(c: Config, s: Sys)
    requires Between(c, s)
    ensures Next(c, s).Some? ==> ValidRootSlot(c, Next(c, s).value, s.finalized)
    ensures forall k :: k in s.stack && Eligible(c, s, k) ==> Next(c, s).Some? && Next(c, s).value.slotNumber <= k
  {
    if Next(c, s).Some? {
      NextIsValid(c, s);
    }
  }

  lemma RestIsClear(c: Config, s: Sys)
    requires AtRest(c, s)
    ensures Clear(c, s)
  {
    NextIsValidOrNone(c, s);
    forall r: nat
      ensures !InTheWay(c, s, r)
    {
      if Next(c, s).Some? && r < |c.slots| {
        Ordered(c, Next(c, s).value.blockRoot, r);
      }
    }
  }

  // ---- The walk to rest ----

  ghost function EligibleSlots(c: Config, s: Sys): set<nat> {
    set k | k in s.stack && Eligible(c, s, k)
  }

  // One root taken that is not between the windows: nothing new is in its way, and it comes closer to
  // rest.
  ghost predicate Closer(c: Config, s: Sys, t: Sys)
    requires s.cursor.Some? && t.cursor.Some?
  {
    && t.index == s.index && t.finalized == s.finalized
    && (if EligibleSlots(c, s) != {} then |EligibleSlots(c, t)| < |EligibleSlots(c, s)|
        else EligibleSlots(c, t) == {} && t.cursor.value.blockRoot == s.cursor.value.blockRoot + 1)
  }

  lemma EligibleIffSome(c: Config, s: Sys)
    ensures EligibleSlots(c, s) == {} <==> NextEligible(c.windows, s.stack, s.index) == None
  {
    assert forall k :: k in EligibleSlots(c, s) <==> k in s.stack && Eligible(c, s, k);
  }

  // A stacked root that is trusted for every duty is replayed and gone.
  lemma ReplayIsCloser(c: Config, s: Sys, t: Sys)
    requires Between(c, s) && !AtRest(c, s) && NextEligible(c.windows, s.stack, s.index).Some?
    requires Between(c, t) && Processed(c, s.(seen := s.finalized), Next(c, s).value, t)
    requires !Middle(c, s, Next(c, s).value.slotNumber)
    ensures Closer(c, s, t) && t.stack == s.stack - {Next(c, s).value.slotNumber}
    ensures t.cursor == Next(c, s)
  {
    var rs := Next(c, s).value;
    NextIsValid(c, s);
    EligibleIffSome(c, s);
    hide Inv, NextEligible;
    assert t.stack == s.stack - {rs.slotNumber};
    assert EligibleSlots(c, t) == EligibleSlots(c, s) - {rs.slotNumber};
    assert rs.slotNumber in EligibleSlots(c, s);
  }

  // A child outside the windows, or within both, leaves nothing eligible on the stack.
  lemma ChildIsCloser(c: Config, s: Sys, t: Sys)
    requires Between(c, s) && !AtRest(c, s) && NextEligible(c.windows, s.stack, s.index).None?
    requires Between(c, t) && Processed(c, s.(seen := s.finalized), Next(c, s).value, t)
    requires !Middle(c, s, Next(c, s).value.slotNumber)
    ensures Closer(c, s, t) && t.cursor == Next(c, s) && NextEligible(c.windows, t.stack, t.index).None?
    ensures forall k :: k in t.stack && Eligible(c, s, k) ==> k in s.stack
  {
    var rs := Next(c, s).value;
    EligibleIffSome(c, s);
    EligibleIffSome(c, t);
    hide Inv, NextEligible;
    assert forall k :: k in s.stack ==> k !in EligibleSlots(c, s) && !Eligible(c, s, k);
    assert forall k :: k in t.stack ==> k in s.stack || k == rs.slotNumber;
    assert EligibleSlots(c, t) == {};
  }

  // The root taken is behind the one that is next after it.
  lemma NextIsHigher(c: Config, s: Sys, t: Sys)
    requires Between(c, s) && Next(c, s).Some? && Between(c, t) && t.index == s.index && t.finalized == s.finalized
    requires t.cursor == Next(c, s) && Next(c, t).Some?
    requires NextEligible(c.windows, s.stack, s.index).Some? ==> t.stack == s.stack - {Next(c, s).value.slotNumber}
    requires NextEligible(c.windows, s.stack, s.index).None? ==> NextEligible(c.windows, t.stack, t.index).None?
    ensures Next(c, s).value.blockRoot < Next(c, t).value.blockRoot
  {
    NextIsValid(c, s);
    NextIsValid(c, t);
    Ordered(c, Next(c, s).value.blockRoot, Next(c, t).value.blockRoot);
    hide Inv;
  }

  // The gate held back nothing eligible before if it does not after.
  lemma HeldBefore(c: Config, s: Sys, t: Sys)
    requires Between(c, s) && !AtRest(c, s) && t.index == s.index && t.finalized == s.finalized
    requires NextEligible(c.windows, s.stack, s.index).Some? ==> t.stack == s.stack - {Next(c, s).value.slotNumber}
    requires HoldsEligible(c, s)
    ensures HoldsEligible(c, t)
  {
    var k :| k in s.stack && Eligible(c, s, k) && Blocks(c, s, k);
    assert k in t.stack && Eligible(c, t, k) && Blocks(c, t, k);
  }

  lemma InTheWayBefore(c: Config, s: Sys, t: Sys, r: nat)
    requires Between(c, s) && !AtRest(c, s) && Between(c, t) && InTheWay(c, t, r)
    requires Processed(c, s.(seen := s.finalized), Next(c, s).value, t)
    requires !Middle(c, s, Next(c, s).value.slotNumber)
    ensures InTheWay(c, s, r)
  {
    if NextEligible(c.windows, s.stack, s.index).Some? {
      ReplayIsCloser(c, s, t);
    } else {
      ChildIsCloser(c, s, t);
    }
    hide Inv, Processed, NextEligible, AtRest;
    if c.slots[r] !in s.stack {
      NextIsHigher(c, s, t);
      if HoldsEligible(c, s) {
        HeldBefore(c, s, t);
        assert false;
      }
    }
  }

  // A clear walk does not come to a block between the windows next.
  lemma NextNotMiddle(c: Config, s: Sys)
    requires Between(c, s) && !AtRest(c, s) && Clear(c, s)
    ensures !Middle(c, s, Next(c, s).value.slotNumber)
  {
    NextIsValid(c, s);
    NextIsValidOrNone(c, s);
    assert !InTheWay(c, s, Next(c, s).value.blockRoot);
  }

  lemma StaysClear(c: Config, s: Sys, t: Sys)
    requires Between(c, s) && !AtRest(c, s) && Clear(c, s) && Between(c, t)
    requires Processed(c, s.(seen := s.finalized), Next(c, s).value, t)
    ensures Closer(c, s, t) && Clear(c, t)
  {
    var rs := Next(c, s).value;
    NextIsValid(c, s);
    NextNotMiddle(c, s);
    if NextEligible(c.windows, s.stack, s.index).Some? {
      ReplayIsCloser(c, s, t);
    } else {
      ChildIsCloser(c, s, t);
    }
    forall r: nat
      ensures !InTheWay(c, t, r)
    {
      if InTheWay(c, t, r) {
        InTheWayBefore(c, s, t, r);
        assert false;
      }
    }
  }

  lemma CursorUpToHead(c: Config, s: Sys)
    requires Between(c, s)
    ensures s.cursor.Some? && s.cursor.value.blockRoot <= s.finalized
  {
  }

  // Roots to go at most: the eligible ones on the stack, then those up to the head.
  ghost function ToHead(s: Sys): nat {
    if s.cursor.Some? && s.cursor.value.blockRoot <= s.finalized then s.finalized - s.cursor.value.blockRoot else 0
  }

  lemma CloserIsLess(c: Config, s: Sys, t: Sys)
    requires Between(c, s) && Between(c, t) && Closer(c, s, t)
    ensures |EligibleSlots(c, t)| < |EligibleSlots(c, s)| ||
      (|EligibleSlots(c, t)| == |EligibleSlots(c, s)| && ToHead(t) < ToHead(s))
  {
    CursorUpToHead(c, s);
    CursorUpToHead(c, t);
  }

  // One root of a clear walk.
  lemma OneCloser(c: Config, s: Sys) returns (m: nat)
    requires Between(c, s) && Clear(c, s) && !AtRest(c, s)
    ensures var t := Walk(c, s, m);
      && Between(c, t) && Clear(c, t) && t.finalized == s.finalized
      && (|EligibleSlots(c, t)| < |EligibleSlots(c, s)| ||
          (|EligibleSlots(c, t)| == |EligibleSlots(c, s)| && ToHead(t) < ToHead(s)))
  {
    m := ProcessNext(c, s);
    StaysClear(c, s, Walk(c, s, m));
    CloserIsLess(c, s, Walk(c, s, m));
    hide Inv, Between, Clear, AtRest, Processed, EligibleSlots, Next, Walk, ToHead;
  }

  lemma {:induction false} ComesToRest(c: Config, s: Sys) returns (n: nat)
    requires Between(c, s) && Clear(c, s)
    ensures AtRest(c, Walk(c, s, n)) && Walk(c, s, n).finalized == s.finalized
    decreases |EligibleSlots(c, s)|, ToHead(s)
  {
    if AtRest(c, s) {
      n := 0;
    } else {
      var m := OneCloser(c, s);
      hide *;
      var rest := ComesToRest(c, Walk(c, s, m));
      n := m + rest;
      WalkSum(c, s, m, rest);
    }
  }

  // A block between the windows is taken once and for all.
  lemma MiddleIsStuck(c: Config, s: Sys, t: Sys)
    requires Between(c, s) && !AtRest(c, s) && Middle(c, s, Next(c, s).value.slotNumber)
    requires Between(c, t) && Processed(c, s.(seen := s.finalized), Next(c, s).value, t)
    ensures StuckOn(c, t, Next(c, s).value)
  {
    var rs := Next(c, s).value;
    NextIsValid(c, s);
    NextIsValidOrNone(c, s);
    hide Inv;
    assert t.stack == s.stack[rs.slotNumber := rs.blockRoot];
    assert forall k :: k in t.stack && Eligible(c, t, k) ==> rs.slotNumber <= k;
    assert rs.slotNumber in t.stack && Eligible(c, t, rs.slotNumber);
  }

  lemma NoneHeld(c: Config, s: Sys)
    requires s.cursor.Some? && EligibleSlots(c, s) == {}
    ensures !HoldsEligible(c, s)
  {
    assert forall k :: k in s.stack && Eligible(c, s, k) ==> k in EligibleSlots(c, s);
  }

  // The next stacked root is before r, or itself between the windows.
  lemma BeyondReplay(c: Config, s: Sys, t: Sys, r: nat)
    requires Between(c, s) && Between(c, t) && InTheWay(c, s, r) && !HoldsEligible(c, t)
    requires Next(c, s).Some? && t.cursor == Next(c, s) && Next(c, s).value.blockRoot < r
    requires t.index == s.index && t.finalized == s.finalized
    ensures !Clear(c, t)
  {
    NextIsValidOrNone(c, t);
    if Next(c, t).value.blockRoot <= r {
      assert InTheWay(c, t, r);
    } else {
      var q := Next(c, t).value;
      NextIsValid(c, t);
      Ordered(c, r, q.blockRoot);
      RootWalkTrust.TrustIsMonotone(c.windows, s.index, s.index, q.slotNumber, c.slots[r]);
      assert InTheWay(c, t, q.blockRoot);
    }
  }

  lemma StaysInTheWayOfReplay(c: Config, s: Sys, t: Sys, r: nat)
    requires Between(c, s) && Between(c, t) && InTheWay(c, s, r) && !Middle(c, s, Next(c, s).value.slotNumber)
    requires NextEligible(c.windows, s.stack, s.index).Some? && Next(c, s).Some? && t.cursor == Next(c, s)
    requires t.stack == s.stack - {Next(c, s).value.slotNumber} && t.index == s.index && t.finalized == s.finalized
    ensures !Clear(c, t)
  {
    var rs := Next(c, s).value;
    NextIsValid(c, s);
    assert r != rs.blockRoot;
    Ordered(c, r, rs.blockRoot);
    if c.slots[r] in s.stack {
      assert InTheWay(c, t, r);
    } else {
      assert !HoldsEligible(c, t) by {
        if HoldsEligible(c, t) {
          var k :| k in t.stack && Eligible(c, t, k) && Blocks(c, t, k);
          assert k in s.stack && Eligible(c, s, k) && Blocks(c, s, k);
        }
      }
      BeyondReplay(c, s, t, r);
    }
  }

  // What is in the way stays in the way until it is taken.
  lemma StaysInTheWay(c: Config, s: Sys, t: Sys, r: nat)
    requires Between(c, s) && !AtRest(c, s) && InTheWay(c, s, r) && !Middle(c, s, Next(c, s).value.slotNumber)
    requires Between(c, t) && Processed(c, s.(seen := s.finalized), Next(c, s).value, t)
    ensures Closer(c, s, t) && !Clear(c, t)
  {
    var rs := Next(c, s).value;
    NextIsValid(c, s);
    if NextEligible(c.windows, s.stack, s.index).Some? {
      ReplayIsCloser(c, s, t);
      StaysInTheWayOfReplay(c, s, t, r);
    } else {
      ChildIsCloser(c, s, t);
      EligibleIffSome(c, s);
      assert forall k :: k in s.stack && Eligible(c, s, k) ==> k in EligibleSlots(c, s);
      assert r != rs.blockRoot;
      hide Inv, Processed, NextEligible;
      NoneHeld(c, t);
      assert InTheWay(c, t, r);
    }
  }

  // A root taken with something in the way: the walk is stuck on it, or closer to what is in the way.
  lemma TakesTheWay(c: Config, s: Sys) returns (n: nat, rs: RootSlot)
    requires Between(c, s) && !Clear(c, s)
    ensures var t := Walk(c, s, n);
      StuckOn(c, t, rs) || (Between(c, t) && Closer(c, s, t) && !Clear(c, t))
  {
    if AtRest(c, s) {
      RestIsClear(c, s);
      assert false;
    } else {
      n := ProcessNext(c, s);
      rs := Next(c, s).value;
      if Middle(c, s, rs.slotNumber) {
        MiddleIsStuck(c, s, Walk(c, s, n));
      } else {
        var r: nat :| InTheWay(c, s, r);
        StaysInTheWay(c, s, Walk(c, s, n), r);
      }
    }
  }

  lemma {:induction false} GetsStuck(c: Config, s: Sys) returns (n: nat, rs: RootSlot)
    requires Between(c, s) && !Clear(c, s)
    ensures StuckOn(c, Walk(c, s, n), rs)
    decreases |EligibleSlots(c, s)|, ToHead(s)
  {
    n, rs := TakesTheWay(c, s);
    if !StuckOn(c, Walk(c, s, n), rs) {
      CloserIsLess(c, s, Walk(c, s, n));
      hide *;
      var rest;
      rest, rs := GetsStuck(c, Walk(c, s, n));
      WalkSum(c, s, n, rest);
      n := n + rest;
    }
  }

  // ---- The walk from any reachable state ----

  ghost predicate EverRests(c: Config, s: Sys) {
    exists n: nat :: AtRest(c, Walk(c, s, n))
  }

  lemma NeverRests(c: Config, s: Sys)
    requires forall n: nat :: !AtRest(c, Walk(c, s, n))
    ensures !EverRests(c, s)
  {
  }

  lemma RestsIff(c: Config, s: Sys) returns (m: nat)
    requires Ready(c, s)
    ensures Between(c, Walk(c, s, m)) && (EverRests(c, s) <==> Clear(c, Walk(c, s, m)))
  {
    m := ReachIdle(c, s);
    var t := Walk(c, s, m);
    if Clear(c, t) {
      var n := ComesToRest(c, t);
      WalkSum(c, s, m, n);
      assert AtRest(c, Walk(c, s, m + n));
    } else {
      var n, rs := GetsStuck(c, t);
      WalkSum(c, s, m, n);
      hide *;
      forall k: nat
        ensures !AtRest(c, Walk(c, s, k))
      {
        StuckNeverRests(c, s, m + n, rs, k);
      }
      NeverRests(c, s);
    }
  }

  // Main result: with a fixed head and no failures the walk comes to rest, from every state a run can
  // reach, if and only if between its roots nothing is in its way.
  lemma WalkRestsIff(c: Config, s: Sys, es: seq<Event>) returns (m: nat)
    requires Initial(c, s) && ValidRun(c, s, es) && After(c, s, es).index > 0
    ensures Between(c, Walk(c, After(c, s, es), m))
    ensures EverRests(c, After(c, s, es)) <==> Clear(c, Walk(c, After(c, s, es), m))
  {
    InitialInv(c, s);
    InvRun(c, s, es);
    m := RestsIff(c, After(c, s, es));
  }

  // ---- What is done by then ----

  // Every block from the first recorded root to the highest is done or on the stack in memory.
  ghost predicate MemoryCovers(c: Config, s: Sys) {
    CoveredBy(c, s.first, s.high, s.done, s.stack)
  }

  // Where nothing is lost, memory covers too.
  lemma CoveredInMemory(c: Config, s: Sys)
    requires Inv(c, s) && Covered(c, s)
    ensures MemoryCovers(c, s)
  {
    StackOnDiskCovers(c, s);
  }

  lemma PurgeStaysCovered(c: Config, s: Sys, rs: RootSlot)
    requires Inv(c, s) && MemoryCovers(c, s) && ValidRootSlot(c, rs, s.finalized)
    ensures CoveredBy(c, s.first, s.high, s.done + {rs.blockRoot}, s.stack - {rs.slotNumber})
  {
    if s.first.Some? {
      forall r | s.first.value <= r <= s.high
        ensures DoneOrStacked(c, s.done + {rs.blockRoot}, s.stack - {rs.slotNumber}, r)
      {
        assert DoneOrStacked(c, s.done, s.stack, r);
        if c.slots[r] == rs.slotNumber {
          SameSlot(c, r, rs.blockRoot);
        }
      }
    }
  }

  lemma RecordStaysCovered(c: Config, s: Sys, rs: RootSlot)
    requires MemoryCovers(c, s) && DoneOrStacked(c, s.done, s.stack, rs.blockRoot)
    requires s.first.Some? ==> rs.blockRoot <= s.high + 1
    ensures MemoryCovers(c, RecordCursor(s, rs))
  {
    RecordKeepsCovered(c, s.(stackFile := s.stack), rs);
  }

  lemma PushStaysCovered(c: Config, s: Sys, rs: RootSlot)
    requires MemoryCovers(c, s)
    ensures CoveredBy(c, s.first, s.high, s.done, s.stack[rs.slotNumber := rs.blockRoot])
  {
    var pushed := s.stack[rs.slotNumber := rs.blockRoot];
    if s.first.Some? {
      forall r | s.first.value <= r <= s.high
        ensures DoneOrStacked(c, s.done, pushed, r)
      {
        assert DoneOrStacked(c, s.done, s.stack, r);
      }
    }
  }

  lemma MemoryCoversStep(c: Config, s: Sys, e: Event)
    requires Inv(c, s) && MemoryCovers(c, s) && Enabled(c, s, e) && !e.Crash?
    ensures MemoryCovers(c, Apply(c, s, e))
  {
    match e
    case DutyDone =>
      PurgeStaysCovered(c, s, s.phase.rs);
      RecordStaysCovered(c, s, s.phase.rs);
      assert s.phase.rs.slotNumber in s.stack;
      hide Inv, CoveredBy;
    case StackWritten =>
      if s.phase.AwaitPurgeWrite? {
        RecordStaysCovered(c, s.(stackFile := s.stack), s.phase.rs);
      }
    case BlockArrived =>
      PushStaysCovered(c, s, RootSlot(s.phase.root, c.slots[s.phase.root]));
      hide Inv, CoveredBy;
    case _ => hide Inv, CoveredBy;
  }

  lemma {:induction false} MemoryCoversRun(c: Config, s: Sys, es: seq<Event>)
    requires Inv(c, s) && MemoryCovers(c, s) && ValidRun(c, s, es) && NoCrash(es)
    ensures MemoryCovers(c, After(c, s, es))
    decreases |es|
  {
    if es == [] {
    } else {
      assert !es[0].Crash?;
      MemoryCoversStep(c, s, es[0]);
      InvStep(c, s, es[0]);
      hide Inv, MemoryCovers, Apply;
      MemoryCoversRun(c, Apply(c, s, es[0]), es[1..]);
    }
  }

  lemma MemoryCoversWalk(c: Config, s: Sys, n: nat)
    requires Ready(c, s) && MemoryCovers(c, s)
    ensures MemoryCovers(c, Walk(c, s, n))
  {
    var es := WalkIsARun(c, s, n);
    MemoryCoversRun(c, s, es);
  }

  // Every block from the first on that is at least the lag behind the head is done, or stacked outside
  // both windows.
  ghost predicate Complete(c: Config, s: Sys) {
    && s.first.Some? && s.finalized < |c.slots|
    && forall r :: s.first.value <= r <= s.finalized && c.slots[r] + c.lag <= c.slots[s.finalized] ==>
         r in s.done || (c.slots[r] in s.stack && !Eligible(c, s, c.slots[r]))
  }

  lemma PassedUpToHigh(c: Config, s: Sys, r: nat)
    requires AtRest(c, s) && s.first.Some?
    requires s.first.value <= r <= s.finalized < |c.slots| && c.slots[r] + c.lag <= c.slots[s.finalized]
    ensures r <= s.high && (c.slots[r] in s.stack ==> !Eligible(c, s, c.slots[r]))
  {
    NextIsValidOrNone(c, s);
    if Next(c, s).Some? {
      var rs := Next(c, s).value;
      Ordered(c, rs.blockRoot, r);
    }
  }

  lemma RestIsComplete(c: Config, s: Sys)
    requires AtRest(c, s) && MemoryCovers(c, s)
    ensures Complete(c, s)
  {
    forall r | s.first.value <= r <= s.finalized && c.slots[r] + c.lag <= c.slots[s.finalized]
      ensures r in s.done || (c.slots[r] in s.stack && !Eligible(c, s, c.slots[r]))
    {
      PassedUpToHigh(c, s, r);
      assert DoneOrStacked(c, s.done, s.stack, r);
    }
  }

  // The cursor is at the first root or at least the lag behind the head.
  ghost predicate CursorBehind(c: Config, s: Sys) {
    && s.cursor.Some? && s.first.Some? && s.cursor.value.blockRoot < |c.slots| && s.finalized < |c.slots|
    && (s.cursor.value.blockRoot <= s.first.value || c.slots[s.cursor.value.blockRoot] + c.lag <= c.slots[s.finalized])
  }

  lemma WalkedBehind(c: Config, s: Sys, es: seq<Event>, n: nat)
    requires Initial(c, s) && ValidRun(c, s, es) && After(c, s, es).index > 0
    requires Walk(c, After(c, s, es), n).cursor.Some?
    ensures CursorBehind(c, Walk(c, After(c, s, es), n))
  {
    InitialInv(c, s);
    InvRun(c, s, es);
    var fs := WalkIsARun(c, After(c, s, es), n);
    AfterConcat(c, s, es, fs);
    InvRun(c, s, es + fs);
    var t := After(c, s, es + fs);
    if c.lag > 0 {
      RootWalkLag.WalkKeepsItsDistance(c, s, es + fs);
      RootWalkLag.HeadsRise(c, t.cursor.value.blockRoot, t.high);
    } else {
      RootWalkLag.HeadsRise(c, t.cursor.value.blockRoot, t.finalized);
    }
  }

  // Wherever the walk comes to rest, the cursor keeps its distance, and every block at least the lag
  // behind the head is done or stacked outside both windows, unless it had been lost before.
  lemma RestedWalkIsComplete(c: Config, s: Sys, es: seq<Event>, n: nat)
    requires Initial(c, s) && ValidRun(c, s, es) && After(c, s, es).index > 0
    requires AtRest(c, Walk(c, After(c, s, es), n))
    ensures CursorBehind(c, Walk(c, After(c, s, es), n))
    ensures MemoryCovers(c, After(c, s, es)) ==> Complete(c, Walk(c, After(c, s, es), n))
  {
    InitialInv(c, s);
    InvRun(c, s, es);
    WalkedBehind(c, s, es, n);
    hide Inv, Complete, CursorBehind, MemoryCovers, CoveredBy;
    if MemoryCovers(c, After(c, s, es)) {
      MemoryCoversWalk(c, After(c, s, es), n);
      RestIsComplete(c, Walk(c, After(c, s, es), n));
    }
  }

  ghost predicate TrustedToHead(c: Config, s: Sys) {
    s.finalized < |c.slots| && Trust.TrustedForEveryDuty(c.windows, s.index, c.slots[s.finalized])
  }

  lemma TrustedIsClear(c: Config, s: Sys)
    requires Between(c, s) && TrustedToHead(c, s)
    ensures Clear(c, s)
  {
    forall r: nat
      ensures !InTheWay(c, s, r)
    {
      if r <= s.finalized {
        Ordered(c, r, s.finalized);
        RootWalkTrust.TrustIsMonotone(c.windows, s.index, s.index, c.slots[s.finalized], c.slots[r]);
      }
    }
  }

  // Nothing stacked, the cursor at the finalized head, every block done.
  ghost predicate CaughtUp(c: Config, s: Sys) {
    && s.phase.Idle? && s.stack == map[]
    && s.cursor.Some? && s.cursor.value.blockRoot == s.finalized
    && s.first.Some? && forall r :: s.first.value <= r <= s.finalized ==> r in s.done
  }

  lemma TrustedStackEligible(c: Config, s: Sys)
    requires Inv(c, s) && TrustedToHead(c, s)
    ensures forall k :: k in s.stack ==> Eligible(c, s, k)
  {
    forall k | k in s.stack
      ensures Eligible(c, s, k)
    {
      assert ValidRootSlot(c, RootSlot(s.stack[k], k), s.finalized);
      Ordered(c, s.stack[k], s.finalized);
      RootWalkTrust.TrustIsMonotone(c.windows, s.index, s.index, c.slots[s.finalized], k);
    }
  }

  lemma RestWithoutLag(c: Config, s: Sys)
    requires AtRest(c, s) && TrustedToHead(c, s) && c.lag == 0 && MemoryCovers(c, s)
    ensures CaughtUp(c, s)
  {
    RestIsComplete(c, s);
    NextIsValidOrNone(c, s);
    CursorUpToHead(c, s);
    TrustedStackEligible(c, s);
    hide MemoryCovers, CoveredBy, FilesAgree, Cold, AllSeen, ValidStack;
    assert s.stack == map[];
    forall r | s.first.value <= r <= s.finalized
      ensures r in s.done
    {
      Ordered(c, r, s.finalized);
      assert c.slots[r] + c.lag <= c.slots[s.finalized];
    }
  }

  lemma {:induction false} IndexStays(c: Config, s: Sys, n: nat)
    ensures Walk(c, s, n).index == s.index
    decreases n
  {
    if n == 0 {
    } else {
      IndexStays(c, Advance(c, s), n - 1);
    }
  }

  lemma TrustedRests(c: Config, s: Sys) returns (n: nat)
    requires Ready(c, s) && TrustedToHead(c, s)
    ensures var t := Walk(c, s, n);
      AtRest(c, t) && t.finalized == s.finalized && TrustedToHead(c, t)
  {
    var m := ReachIdle(c, s);
    TrustedIsClear(c, Walk(c, s, m));
    var k := ComesToRest(c, Walk(c, s, m));
    n := m + k;
    WalkSum(c, s, m, k);
    IndexStays(c, s, n);
  }

  // Main result: with a fixed head, no failures and an indexer trusted up to the head, the walk comes
  // to rest from every state a run can reach; where nothing was lost before, without a lag it has
  // caught up with the head.
  lemma WalkCatchesUp(c: Config, s: Sys, es: seq<Event>) returns (n: nat)
    requires Initial(c, s) && ValidRun(c, s, es)
    requires After(c, s, es).index > 0 && TrustedToHead(c, After(c, s, es))
    ensures var t := Walk(c, After(c, s, es), n);
      && t.finalized == After(c, s, es).finalized && AtRest(c, t) && CursorBehind(c, t)
      && (MemoryCovers(c, After(c, s, es)) ==> Complete(c, t) && (c.lag == 0 ==> CaughtUp(c, t)))
  {
    InitialInv(c, s);
    InvRun(c, s, es);
    var u := After(c, s, es);
    n := TrustedRests(c, u);
    RestedWalkIsComplete(c, s, es, n);
    hide Inv, Complete, CaughtUp, CursorBehind, MemoryCovers, CoveredBy, TrustedToHead, AtRest;
    if MemoryCovers(c, u) && c.lag == 0 {
      MemoryCoversWalk(c, u, n);
      RestWithoutLag(c, Walk(c, u, n));
    }
  }
}
