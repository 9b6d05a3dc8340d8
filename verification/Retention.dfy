/**
 The retention worker: every policy deletes the old and then the surplus logs of its scope.
 Rows with equal timestamps may be deleted in any order, as in PostgreSQL.
 */
module Retention {
  import opened Common

  /** A row of the logs table: its id, whose log it is, and when it was written. */
  datatype Log = Log(id: nat, command: Option<Id>, runner: Option<Slug>, at: Time)

  /** A policy's scope and scope_id; an unsupported scope or a malformed command id is an error. */
  datatype Scope = Global | OfRunner(slug: Slug) | OfCommand(id: Id) | Malformed

  datatype Policy = Policy(scope: Scope, maxAgeDays: Option<int>, maxSizeMB: Option<int>)

  predicate InScope(l: Log, scope: Scope)
  {
    match scope
    case Global => true
    case OfRunner(slug) => l.runner == Some(slug)
    case OfCommand(id) => l.command == Some(id)
    case Malformed => false
  }

  function Scoped(logs: set<Log>, scope: Scope): set<Log>
  {
    set l | l in logs && InScope(l, scope)
  }

  predicate LimitsAge(p: Policy)
  {
    p.maxAgeDays.Some? && p.maxAgeDays.value > 0
  }

  /** The clock as a policy reads it: `Ago(days)` is that many calendar days before the present instant. */
  type Ago = int -> Time

  function Cutoff(p: Policy, ago: Ago): Time
    requires LimitsAge(p)
  {
    ago(p.maxAgeDays.value)
  }

  predicate LimitsSize(p: Policy)
  {
    p.maxSizeMB.Some? && p.maxSizeMB.value > 0
  }

  /** A log is taken to be 100 bytes long. */
  function MaxLogs(p: Policy): nat
    requires LimitsSize(p)
  {
    p.maxSizeMB.value * 1024 * 1024 / 100
  }

  function Min(a: nat, b: nat): nat
  {
    if a < b then a else b
  }

  // ----- the two deletions as relations -----

  function Younger(logs: set<Log>, scope: Scope, cutoff: Time): set<Log>
  {
    set l | l in logs && !(InScope(l, scope) && l.at < cutoff)
  }

  /** `kept` are `n` logs of `logs`, or all, and none of them is older than one that is missing. */
  predicate Newest(logs: set<Log>, n: nat, kept: set<Log>)
  {
    && kept <= logs
    && |kept| == Min(|logs|, n)
    && forall k, d :: k in kept && d in logs && d !in kept ==> d.at <= k.at
  }

  /** `after` keeps the newest `n` logs of the scope and everything outside it. */
  ghost predicate SizeCut(before: set<Log>, after: set<Log>, scope: Scope, n: nat)
  {
    && after <= before
    && Newest(Scoped(before, scope), n, Scoped(after, scope))
    && forall l :: l in before && !InScope(l, scope) ==> l in after
  }

  /** Of the logs `own` the newest `n` are left, or all; everything else is left in any case. */
  ghost predicate NewestRemain(before: set<Log>, after: set<Log>, own: set<Log>, n: nat)
  {
    && before - own <= after <= before
    && |after * own| == (if |own| < n then |own| else n)
    && forall k, d :: k in after * own && d in own - after ==> d.at <= k.at
  }

  lemma SizeCutRemain(before: set<Log>, after: set<Log>, scope: Scope, n: nat)
    requires SizeCut(before, after, scope, n)
    ensures NewestRemain(before, after, Scoped(before, scope), n)
  {
    assert Scoped(after, scope) == after * Scoped(before, scope);
  }

  lemma ScopedIs(logs: set<Log>, scope: Scope)
    ensures scope.Global? ==> Scoped(logs, scope) == logs
    ensures scope.OfRunner? ==> Scoped(logs, scope) == set l | l in logs && l.runner == Some(scope.slug)
    ensures scope.OfCommand? ==> Scoped(logs, scope) == set l | l in logs && l.command == Some(scope.id)
  {
  }

  lemma DeletionsAdd(before: set<Log>, middle: set<Log>, after: set<Log>)
    requires after <= middle <= before
    ensures |before - after| == |before - middle| + |middle - after|
  {
    assert before - after == (before - middle) + (middle - after);
  }

  // ----- the worker as written -----

  class LogStore {
    var logs: set<Log>

    constructor (logs: set<Log>)
      ensures this.logs == logs
    {
      this.logs := logs;
    }

    /** None is the error for a malformed scope. */
    method DeleteLogsByAge(scope: Scope, cutoff: Time) returns (count: Option<nat>)
      modifies this
      ensures count.None? <==> scope.Malformed?
      ensures logs == Younger(old(logs), scope, cutoff)
      ensures forall l :: l in logs <==>
                l in old(logs)
                && match scope
                   case Global => l.at >= cutoff
                   case OfRunner(slug) => l.runner != Some(slug) || l.at >= cutoff
                   case OfCommand(id) => l.command != Some(id) || l.at >= cutoff
                   case Malformed => true
      ensures count.Some? ==> count.value == |old(logs) - logs|
    {
      if scope.Malformed? {
        assert logs == Younger(logs, scope, cutoff);
        return None;
      }
      var doomed := set l | l in logs && InScope(l, scope) && l.at < cutoff;
      assert logs - doomed == Younger(logs, scope, cutoff);
      assert logs - (logs - doomed) == doomed;
      logs := logs - doomed;
      count := Some(|doomed|);
    }

    /** Keeps the newest `maxBytes / 100` logs of the scope. */
    method DeleteLogsBySize(scope: Scope, maxBytes: nat) returns (count: Option<nat>)
      modifies this
      ensures count.None? <==> scope.Malformed?
      ensures scope.Malformed? ==> logs == old(logs)
      ensures !scope.Malformed? ==> SizeCut(old(logs), logs, scope, maxBytes / 100)
      ensures scope.Global? ==> NewestRemain(old(logs), logs, old(logs), maxBytes / 100)
      ensures scope.OfRunner? ==>
                NewestRemain(old(logs), logs, (set l | l in old(logs) && l.runner == Some(scope.slug)), maxBytes / 100)
      ensures scope.OfCommand? ==>
                NewestRemain(old(logs), logs, (set l | l in old(logs) && l.command == Some(scope.id)), maxBytes / 100)
      ensures count.Some? ==> count.value == |old(logs) - logs|
    {
      if scope.Malformed? {
        return None;
      }
      var own := Scoped(logs, scope);
      ghost var witnessed := NewestExists(own, maxBytes / 100);
      var kept: set<Log> :| kept <= own && Newest(own, maxBytes / 100, kept);
      var doomed := own - kept;
      assert logs - (logs - doomed) == doomed;
      logs := logs - doomed;
      assert Scoped(logs, scope) == kept;
      count := Some(|doomed|);
      SizeCutRemain(old(logs), logs, scope, maxBytes / 100);
      ScopedIs(old(logs), scope);
    }

    /** One policy; None if the scope is malformed and at least one limit applies. */
    method ApplyPolicy(p: Policy, ago: Ago) returns (deleted: Option<nat>)
      modifies this
      ensures Applied(old(logs), logs, p, ago)
      ensures logs <= old(logs)
      ensures forall l :: l in old(logs) && l !in logs ==>
                p.scope == Global || (l.runner.Some? && p.scope == OfRunner(l.runner.value))
                || (l.command.Some? && p.scope == OfCommand(l.command.value))
      ensures p.maxSizeMB.None? || p.maxSizeMB.value <= 0 ==>
                forall l :: l in old(logs) && l !in logs ==>
                  p.maxAgeDays.Some? && p.maxAgeDays.value > 0 && l.at < ago(p.maxAgeDays.value)
      ensures (p.maxAgeDays.None? || p.maxAgeDays.value <= 0) && p.maxSizeMB.Some? && p.maxSizeMB.value > 0 ==>
                var max := p.maxSizeMB.value * 1024 * 1024 / 100;
                && (p.scope == Global ==> NewestRemain(old(logs), logs, old(logs), max))
                && (p.scope.OfRunner? ==>
                      NewestRemain(old(logs), logs, (set l | l in old(logs) && l.runner == Some(p.scope.slug)), max))
                && (p.scope.OfCommand? ==>
                      NewestRemain(old(logs), logs, (set l | l in old(logs) && l.command == Some(p.scope.id)), max))
      ensures p.maxAgeDays.Some? && p.maxAgeDays.value > 0 ==>
                forall l :: l in logs && (p.scope == Global || (l.runner.Some? && p.scope == OfRunner(l.runner.value))
                                          || (l.command.Some? && p.scope == OfCommand(l.command.value))) ==>
                  l.at >= ago(p.maxAgeDays.value)
      ensures p.maxSizeMB.Some? && p.maxSizeMB.value > 0 ==>
                var max := p.maxSizeMB.value * 1024 * 1024 / 100;
                && (p.scope == Global ==> |logs| <= max)
                && (p.scope.OfRunner? ==> |set l | l in logs && l.runner == Some(p.scope.slug)| <= max)
                && (p.scope.OfCommand? ==> |set l | l in logs && l.command == Some(p.scope.id)| <= max)
      ensures deleted.None? <==> p.scope.Malformed? && (LimitsAge(p) || LimitsSize(p))
      ensures deleted.Some? ==> deleted.value == |old(logs) - logs|
    {
      var total: nat := 0;
      assert logs - logs == {};
      if p.maxAgeDays.Some? && p.maxAgeDays.value > 0 {
        var count := DeleteLogsByAge(p.scope, ago(p.maxAgeDays.value));
        if count.None? {
          PolicyIsMet(old(logs), logs, p, ago);
          return None;
        }
        total := total + count.value;
      }
      ghost var middle := logs;
      if p.maxSizeMB.Some? && p.maxSizeMB.value > 0 {
        var count := DeleteLogsBySize(p.scope, p.maxSizeMB.value * 1024 * 1024);
        if count.None? {
          PolicyIsMet(old(logs), logs, p, ago);
          return None;
        }
        total := total + count.value;
        DeletionsAdd(old(logs), middle, logs);
      }
      deleted := Some(total);
      PolicyIsMet(old(logs), logs, p, ago);
      ScopedIs(old(logs), p.scope);
    }

    /**
     One run over all policies, each with the clock as it reads it; an error in one does not keep
     the others from being applied.
     */
    method Run(policies: seq<Policy>, clocks: seq<Ago>)
      requires |clocks| == |policies|
      modifies this
      ensures logs <= old(logs)
      ensures forall l :: l in old(logs) && l !in logs ==>
                exists p :: p in policies &&
                            (p.scope == Global || (l.runner.Some? && p.scope == OfRunner(l.runner.value))
                             || (l.command.Some? && p.scope == OfCommand(l.command.value)))
      ensures forall i :: 0 <= i < |policies| && policies[i].maxAgeDays.Some? && policies[i].maxAgeDays.value > 0 ==>
                var scope := policies[i].scope;
                forall l :: l in logs && (scope == Global || (l.runner.Some? && scope == OfRunner(l.runner.value))
                                          || (l.command.Some? && scope == OfCommand(l.command.value))) ==>
                  l.at >= clocks[i](policies[i].maxAgeDays.value)
      ensures forall i :: 0 <= i < |policies| && policies[i].maxSizeMB.Some? && policies[i].maxSizeMB.value > 0 ==>
                var scope, max := policies[i].scope, policies[i].maxSizeMB.value * 1024 * 1024 / 100;
                && (scope == Global ==> |logs| <= max)
                && (scope.OfRunner? ==> |set l | l in logs && l.runner == Some(scope.slug)| <= max)
                && (scope.OfCommand? ==> |set l | l in logs && l.command == Some(scope.id)| <= max)
      ensures AllHold(logs, policies, clocks)
      ensures AllHold(old(logs), policies, clocks) ==> logs == old(logs)
    {
      for i := 0 to |policies|
        invariant logs <= old(logs)
        invariant AllHold(logs, policies[..i], clocks[..i])
        invariant forall l :: l in old(logs) && (forall p :: p in policies ==> !InScope(l, p.scope)) ==> l in logs
        invariant AllHold(old(logs), policies, clocks) ==> logs == old(logs)
      {
        ghost var before := logs;
        var deleted := ApplyPolicy(policies[i], clocks[i]);
        AppliedShrinks(before, logs, policies[i], clocks[i]);
        OneMoreHolds(before, logs, policies, clocks, i);
        if Holds(before, policies[i], clocks[i]) {
          AppliedTwice(before, logs, policies[i], clocks[i]);
        }
      }
      assert policies[..|policies|] == policies && clocks[..|clocks|] == clocks;
      forall l | l in old(logs) && l !in logs
        ensures exists p :: p in policies &&
                            (p.scope == Global || (l.runner.Some? && p.scope == OfRunner(l.runner.value))
                             || (l.command.Some? && p.scope == OfCommand(l.command.value)))
      {
        var p :| p in policies && InScope(l, p.scope);
      }
      forall i | 0 <= i < |policies|
        ensures HoldsWritten(logs, policies[i], clocks[i])
      {
        HoldsMeans(logs, policies[i], clocks[i]);
      }
    }
  }

  // ----- policies -----

  /** What a policy allows to be there at the present instant. */
  predicate Holds(logs: set<Log>, p: Policy, ago: Ago)
  {
    && (LimitsAge(p) ==> forall l :: l in logs && InScope(l, p.scope) ==> l.at >= Cutoff(p, ago))
    && (LimitsSize(p) ==> |Scoped(logs, p.scope)| <= MaxLogs(p))
  }

  /** What applying a policy can do: nothing if it is malformed, otherwise age and then size. */
  ghost predicate Applied(before: set<Log>, after: set<Log>, p: Policy, ago: Ago)
  {
    var middle := if LimitsAge(p) then Younger(before, p.scope, Cutoff(p, ago)) else before;
    if LimitsSize(p) && !p.scope.Malformed? then SizeCut(middle, after, p.scope, MaxLogs(p)) else after == middle
  }

  lemma SmallerSet(a: set<Log>, b: set<Log>)
    requires a <= b
    ensures |a| <= |b| && (|a| == |b| ==> a == b)
  {
    assert b == a + (b - a);
    assert |b| == |a| + |b - a|;
  }

  /** The same with the columns of a log written out. */
  ghost predicate HoldsWritten(logs: set<Log>, p: Policy, ago: Ago)
  {
    && (p.maxAgeDays.Some? && p.maxAgeDays.value > 0 ==>
          forall l :: l in logs && (p.scope == Global || (l.runner.Some? && p.scope == OfRunner(l.runner.value))
                                    || (l.command.Some? && p.scope == OfCommand(l.command.value))) ==>
            l.at >= ago(p.maxAgeDays.value))
    && (p.maxSizeMB.Some? && p.maxSizeMB.value > 0 ==>
          var max := p.maxSizeMB.value * 1024 * 1024 / 100;
          && (p.scope == Global ==> |logs| <= max)
          && (p.scope.OfRunner? ==> |set l | l in logs && l.runner == Some(p.scope.slug)| <= max)
          && (p.scope.OfCommand? ==> |set l | l in logs && l.command == Some(p.scope.id)| <= max))
  }

  lemma HoldsMeans(logs: set<Log>, p: Policy, ago: Ago)
    requires Holds(logs, p, ago)
    ensures HoldsWritten(logs, p, ago)
  {
    ScopedIs(logs, p.scope);
  }

  lemma PolicyIsMet(before: set<Log>, after: set<Log>, p: Policy, ago: Ago)
    requires Applied(before, after, p, ago)
    ensures after <= before && HoldsWritten(after, p, ago)
    ensures !LimitsSize(p) ==> forall l :: l in before && l !in after ==> LimitsAge(p) && l.at < ago(p.maxAgeDays.value)
    ensures !LimitsAge(p) && LimitsSize(p) && !p.scope.Malformed? ==>
              NewestRemain(before, after, Scoped(before, p.scope), p.maxSizeMB.value * 1024 * 1024 / 100)
    ensures forall l :: l in before && l !in after ==> InScope(l, p.scope)
  {
    AppliedShrinks(before, after, p, ago);
    AppliedHolds(before, after, p, ago);
    HoldsMeans(after, p, ago);
    if !LimitsAge(p) && LimitsSize(p) && !p.scope.Malformed? {
      SizeCutRemain(before, after, p.scope, MaxLogs(p));
    }
  }

  lemma HoldsForFewer(logs: set<Log>, fewer: set<Log>, p: Policy, ago: Ago)
    requires fewer <= logs && Holds(logs, p, ago)
    ensures Holds(fewer, p, ago)
  {
    SmallerSet(Scoped(fewer, p.scope), Scoped(logs, p.scope));
  }

  lemma AppliedShrinks(before: set<Log>, after: set<Log>, p: Policy, ago: Ago)
    requires Applied(before, after, p, ago)
    ensures after <= before
    ensures forall l :: l in before && !InScope(l, p.scope) ==> l in after
  {
  }

  lemma AppliedHolds(before: set<Log>, after: set<Log>, p: Policy, ago: Ago)
    requires Applied(before, after, p, ago)
    ensures Holds(after, p, ago)
  {
    if p.scope.Malformed? {
      assert Scoped(after, p.scope) == {};
    }
  }

  /** A policy that holds deletes nothing. */
  lemma AppliedTwice(before: set<Log>, after: set<Log>, p: Policy, ago: Ago)
    requires Holds(before, p, ago) && Applied(before, after, p, ago)
    ensures after == before
  {
    assert LimitsAge(p) ==> Younger(before, p.scope, Cutoff(p, ago)) == before;
    if LimitsSize(p) && !p.scope.Malformed? {
      SmallerSet(Scoped(after, p.scope), Scoped(before, p.scope));
      assert forall l :: l in before ==> l in Scoped(before, p.scope) || !InScope(l, p.scope);
    }
  }

  /** Every policy holds, at the instant at which it was applied. */
  ghost predicate AllHold(logs: set<Log>, policies: seq<Policy>, clocks: seq<Ago>)
    requires |clocks| == |policies|
  {
    forall i :: 0 <= i < |policies| ==> Holds(logs, policies[i], clocks[i])
  }

  lemma OneMoreHolds(before: set<Log>, after: set<Log>, policies: seq<Policy>, clocks: seq<Ago>, i: nat)
    requires |clocks| == |policies| && i < |policies| && AllHold(before, policies[..i], clocks[..i])
    requires Applied(before, after, policies[i], clocks[i])
    ensures AllHold(after, policies[..i + 1], clocks[..i + 1])
  {
    AppliedShrinks(before, after, policies[i], clocks[i]);
    AppliedHolds(before, after, policies[i], clocks[i]);
    forall k | 0 <= k < i ensures Holds(after, policies[k], clocks[k]) {
      assert Holds(before, policies[..i][k], clocks[..i][k]);
      HoldsForFewer(before, after, policies[k], clocks[k]);
    }
  }

  /** After one run every policy holds at once, and a second run at the same instants deletes nothing. */
  method RunTwice(store: LogStore, policies: seq<Policy>, clocks: seq<Ago>) returns (ghost once: set<Log>)
    requires |clocks| == |policies|
    modifies store
    ensures once <= old(store.logs) && AllHold(once, policies, clocks)
    ensures store.logs == once
  {
    store.Run(policies, clocks);
    once := store.logs;
    store.Run(policies, clocks);
  }

  // ----- age and size commute -----

  /** `kept` is a possible result of deleting by age and then by size. */
  ghost predicate AgeThenSize(logs: set<Log>, cutoff: Time, n: nat, kept: set<Log>)
  {
    Newest(Younger(logs, Global, cutoff), n, kept)
  }

  /** `kept` is a possible result of deleting by size and then by age. */
  ghost predicate SizeThenAge(logs: set<Log>, cutoff: Time, n: nat, kept: set<Log>)
  {
    exists some :: Newest(logs, n, some) && kept == Younger(some, Global, cutoff)
  }

  lemma {:induction false} NewestExists(logs: set<Log>, n: nat) returns (kept: set<Log>)
    ensures Newest(logs, n, kept)
    decreases |logs|
  {
    if |logs| <= n {
      kept := logs;
    } else {
      var oldest := SomeOldest(logs);
      kept := NewestExists(logs - {oldest}, n);
    }
  }

  lemma {:induction false} SomeOldest(logs: set<Log>) returns (oldest: Log)
    requires logs != {}
    ensures oldest in logs && forall l :: l in logs ==> oldest.at <= l.at
    decreases |logs|
  {
    oldest :| oldest in logs;
    var rest := logs - {oldest};
    if rest != {} {
      var other := SomeOldest(rest);
      if other.at < oldest.at {
        oldest := other;
      }
    }
  }

  lemma AgeFirstToSizeFirst(logs: set<Log>, cutoff: Time, n: nat, kept: set<Log>)
    requires AgeThenSize(logs, cutoff, n, kept)
    ensures SizeThenAge(logs, cutoff, n, kept)
  {
    var young := Younger(logs, Global, cutoff);
    var old' := logs - young;
    SmallerSet(young, logs);
    if |young| <= n {
      SmallerSet(kept, young);
      var extra := NewestExists(old', Min(|logs|, n) - |young|);
      var some := young + extra;
      assert young !! extra && |old'| == |logs| - |young|;
      assert |some| == |young| + |extra|;
      assert Newest(logs, n, some);
      assert kept == Younger(some, Global, cutoff);
    } else {
      assert Newest(logs, n, kept);
      assert kept == Younger(kept, Global, cutoff);
    }
  }

  lemma SizeFirstToAgeFirst(logs: set<Log>, cutoff: Time, n: nat, some: set<Log>)
    requires Newest(logs, n, some)
    ensures AgeThenSize(logs, cutoff, n, Younger(some, Global, cutoff))
  {
    var young := Younger(logs, Global, cutoff);
    var kept := Younger(some, Global, cutoff);
    SmallerSet(young, logs);
    SmallerSet(some, logs);
    if l :| l in some && l.at < cutoff {
      assert young <= some;
      assert kept == young;
      SmallerSet(young, some);
    } else {
      assert kept == some && some <= young;
      SmallerSet(some, young);
    }
  }

  /** On one scope the two deletions have the same possible results in either order. */
  lemma AgeAndSizeCommute(logs: set<Log>, cutoff: Time, n: nat, kept: set<Log>)
    ensures AgeThenSize(logs, cutoff, n, kept) <==> SizeThenAge(logs, cutoff, n, kept)
  {
    if AgeThenSize(logs, cutoff, n, kept) {
      AgeFirstToSizeFirst(logs, cutoff, n, kept);
    }
    if SizeThenAge(logs, cutoff, n, kept) {
      var some :| Newest(logs, n, some) && kept == Younger(some, Global, cutoff);
      SizeFirstToAgeFirst(logs, cutoff, n, some);
    }
  }

  lemma ScopedYounger(logs: set<Log>, scope: Scope, cutoff: Time)
    ensures Scoped(Younger(logs, scope, cutoff), scope) == Younger(Scoped(logs, scope), Global, cutoff)
  {
  }

  /** The same for the logs of any scope within the table, as one policy deletes them. */
  lemma PolicyOrderIsIrrelevant(before: set<Log>, after: set<Log>, scope: Scope, cutoff: Time, n: nat)
    ensures SizeCut(Younger(before, scope, cutoff), after, scope, n) <==>
            exists middle :: SizeCut(before, middle, scope, n) && after == Younger(middle, scope, cutoff)
  {
    if SizeCut(Younger(before, scope, cutoff), after, scope, n) {
      var middle := PolicySizeFirst(before, after, scope, cutoff, n);
    }
    if middle :| SizeCut(before, middle, scope, n) && after == Younger(middle, scope, cutoff) {
      PolicyAgeFirst(before, middle, scope, cutoff, n);
    }
  }

  lemma PolicySizeFirst(before: set<Log>, after: set<Log>, scope: Scope, cutoff: Time, n: nat)
    returns (middle: set<Log>)
    requires SizeCut(Younger(before, scope, cutoff), after, scope, n)
    ensures SizeCut(before, middle, scope, n) && after == Younger(middle, scope, cutoff)
  {
    var own := Scoped(before, scope);
    ScopedYounger(before, scope, cutoff);
    AgeFirstToSizeFirst(own, cutoff, n, Scoped(after, scope));
    var some :| Newest(own, n, some) && Scoped(after, scope) == Younger(some, Global, cutoff);
    middle := some + (before - own);
    ReplaceScoped(before, scope, some);
    SameLogs(before, after, middle, scope, cutoff);
  }

  lemma ReplaceScoped(before: set<Log>, scope: Scope, some: set<Log>)
    requires some <= Scoped(before, scope)
    ensures var middle := some + (before - Scoped(before, scope));
            && middle <= before && Scoped(middle, scope) == some
            && forall l :: !InScope(l, scope) ==> (l in middle <==> l in before)
  {
  }

  lemma SameLogs(before: set<Log>, after: set<Log>, middle: set<Log>, scope: Scope, cutoff: Time)
    requires after <= Younger(before, scope, cutoff)
    requires forall l :: l in Younger(before, scope, cutoff) && !InScope(l, scope) ==> l in after
    requires forall l :: !InScope(l, scope) ==> (l in middle <==> l in before)
    requires Scoped(after, scope) == Younger(Scoped(middle, scope), Global, cutoff)
    ensures after == Younger(middle, scope, cutoff)
  {
    forall l ensures l in after <==> l in Younger(middle, scope, cutoff) {
      if InScope(l, scope) {
        assert l in after <==> l in Scoped(after, scope);
        assert l in middle <==> l in Scoped(middle, scope);
      }
    }
  }

  lemma PolicyAgeFirst(before: set<Log>, middle: set<Log>, scope: Scope, cutoff: Time, n: nat)
    requires SizeCut(before, middle, scope, n)
    ensures SizeCut(Younger(before, scope, cutoff), Younger(middle, scope, cutoff), scope, n)
  {
    ScopedYounger(before, scope, cutoff);
    ScopedYounger(middle, scope, cutoff);
    SizeFirstToAgeFirst(Scoped(before, scope), cutoff, n, Scoped(middle, scope));
  }

  // ----- when the order of two policies matters -----

  /** No two logs have the same timestamp, so that nothing is left to the database. */
  predicate Untied(logs: set<Log>)
  {
    forall k, l :: k in logs && l in logs && k.at == l.at ==> k == l
  }

  /** The logs of a policy's scope that are not too old for it. */
  function Young(logs: set<Log>, p: Policy, ago: Ago): set<Log>
  {
    set l | l in logs && InScope(l, p.scope) && (LimitsAge(p) ==> l.at >= Cutoff(p, ago))
  }

  /** What a policy keeps of its scope. */
  ghost predicate Cuts(before: set<Log>, after: set<Log>, p: Policy, ago: Ago)
  {
    && after <= before
    && (forall l :: l in before && !InScope(l, p.scope) ==> l in after)
    && Scoped(after, p.scope) <= Young(before, p, ago)
    && (LimitsSize(p) ==> Newest(Young(before, p, ago), MaxLogs(p), Scoped(after, p.scope)))
    && (!LimitsSize(p) ==> Scoped(after, p.scope) == Young(before, p, ago))
  }

  lemma AppliedCuts(before: set<Log>, after: set<Log>, p: Policy, ago: Ago)
    requires Applied(before, after, p, ago)
    ensures Cuts(before, after, p, ago)
  {
    var middle := if LimitsAge(p) then Younger(before, p.scope, Cutoff(p, ago)) else before;
    assert Scoped(middle, p.scope) == Young(before, p, ago);
    if LimitsSize(p) && p.scope.Malformed? {
      assert Young(before, p, ago) == {} && Scoped(after, p.scope) == {};
    }
  }

  lemma OneMoreThan(some: set<Log>, l: Log, all: set<Log>)
    requires l !in some && l in all && some <= all
    ensures |some| < |all|
  {
    SmallerSet(some + {l}, all);
  }

  /** A log that is kept among many is kept among fewer, if the limit leaves room for it. */
  lemma NewestAmongFewer(all: set<Log>, fewer: set<Log>, n: nat, kept: set<Log>, left: set<Log>, l: Log)
    requires Untied(all) && fewer <= all && Newest(all, n, kept) && Newest(fewer, n, left)
    requires l in kept && l in fewer
    ensures l in left
  {
    SmallerSet(left, fewer);
    if l !in left {
      forall k | k in left ensures k in kept {
        assert l.at <= k.at;
      }
      OneMoreThan(left, l, kept);
      OneMoreThan(left, l, fewer);
    }
  }

  /** What a policy keeps of all logs it keeps of fewer. */
  lemma KeptAmongFewer(logs: set<Log>, fewer: set<Log>, alone: set<Log>, after: set<Log>, p: Policy, ago: Ago)
    requires Untied(logs) && fewer <= logs && Cuts(logs, alone, p, ago) && Cuts(fewer, after, p, ago)
    ensures alone * fewer <= after
  {
    forall l | l in alone && l in fewer ensures l in after {
      if InScope(l, p.scope) {
        assert l in Scoped(alone, p.scope) && l in Young(fewer, p, ago);
        if LimitsSize(p) {
          NewestAmongFewer(Young(logs, p, ago), Young(fewer, p, ago), MaxLogs(p),
                           Scoped(alone, p.scope), Scoped(after, p.scope), l);
        }
        assert l in Scoped(after, p.scope);
      }
    }
  }

  /** `other` has left everything that the policy keeps of its scope when applied alone. */
  ghost predicate LeavesKept(other: set<Log>, alone: set<Log>, p: Policy)
  {
    Scoped(alone, p.scope) <= other
  }

  /** `other` has deleted everything that the policy, applied alone, deletes for its size. */
  ghost predicate TakesSurplus(logs: set<Log>, other: set<Log>, alone: set<Log>, p: Policy, ago: Ago)
  {
    forall l :: l in Young(logs, p, ago) && l !in alone ==> l !in other
  }

  lemma SurplusOrKept(logs: set<Log>, other: set<Log>, alone: set<Log>, after: set<Log>, p: Policy, ago: Ago)
    requires Untied(logs) && other <= logs && Cuts(logs, alone, p, ago) && Cuts(other, after, p, ago)
    requires LeavesKept(other, alone, p) || TakesSurplus(logs, other, alone, p, ago)
    ensures after <= alone
  {
    KeptAmongFewer(logs, other, alone, after, p, ago);
    var mine, left := Scoped(alone, p.scope), Scoped(after, p.scope);
    if LimitsSize(p) && LeavesKept(other, alone, p) {
      assert mine <= left;
      SmallerSet(Young(other, p, ago), Young(logs, p, ago));
      SmallerSet(mine, left);
      assert |left| <= |mine|;
      assert left == mine;
    }
    forall l | l in after ensures l in alone {
      if InScope(l, p.scope) {
        assert l in left && l in Young(other, p, ago) && l in Young(logs, p, ago);
      }
    }
  }

  lemma KeptOrSurplus(logs: set<Log>, other: set<Log>, alone: set<Log>, after: set<Log>, p: Policy, ago: Ago)
    requires Untied(logs) && other <= logs && Cuts(logs, alone, p, ago) && Cuts(other, after, p, ago)
    requires after <= alone && !TakesSurplus(logs, other, alone, p, ago)
    ensures LeavesKept(other, alone, p)
  {
    var mine, left := Scoped(alone, p.scope), Scoped(after, p.scope);
    var l :| l in Young(logs, p, ago) && l !in alone && l in other;
    assert l in Young(other, p, ago) && l !in left && l !in mine;
    assert left <= mine;
    OneMoreThan(left, l, Young(other, p, ago));
    OneMoreThan(mine, l, Young(logs, p, ago));
    SmallerSet(left, mine);
    assert left == mine;
  }

  /** The policy, applied after another one, keeps nothing that it deletes when applied alone. */
  lemma DeletesNoLessIff(logs: set<Log>, other: set<Log>, alone: set<Log>, after: set<Log>, p: Policy, ago: Ago)
    requires Untied(logs) && other <= logs && Cuts(logs, alone, p, ago) && Cuts(other, after, p, ago)
    ensures after <= alone <==> LeavesKept(other, alone, p) || TakesSurplus(logs, other, alone, p, ago)
  {
    if LeavesKept(other, alone, p) || TakesSurplus(logs, other, alone, p, ago) {
      SurplusOrKept(logs, other, alone, after, p, ago);
    } else if after <= alone {
      KeptOrSurplus(logs, other, alone, after, p, ago);
    }
  }

  lemma SameIff(a: set<Log>, b: set<Log>, ab: set<Log>, ba: set<Log>)
    requires a * b <= ab <= a && a * b <= ba <= b
    ensures ab == ba <==> ab <= b && ba <= a
  {
  }

  /**
   For logs of different timestamps, the order in which two policies are applied does not matter if
   and only if each of them either leaves what the other one would keep of its scope, or deletes
   whatever the other one would delete for its size.
   */
  lemma OrderIsIrrelevantIff(logs: set<Log>, p: Policy, q: Policy, agoP: Ago, agoQ: Ago,
                             onlyP: set<Log>, thenQ: set<Log>, onlyQ: set<Log>, thenP: set<Log>)
    requires Untied(logs)
    requires Applied(logs, onlyP, p, agoP) && Applied(onlyP, thenQ, q, agoQ)
    requires Applied(logs, onlyQ, q, agoQ) && Applied(onlyQ, thenP, p, agoP)
    ensures thenQ == thenP <==>
            (LeavesKept(onlyP, onlyQ, q) || TakesSurplus(logs, onlyP, onlyQ, q, agoQ))
            && (LeavesKept(onlyQ, onlyP, p) || TakesSurplus(logs, onlyQ, onlyP, p, agoP))
  {
    AppliedCuts(logs, onlyP, p, agoP);
    AppliedCuts(onlyP, thenQ, q, agoQ);
    AppliedCuts(logs, onlyQ, q, agoQ);
    AppliedCuts(onlyQ, thenP, p, agoP);
    KeptAmongFewer(logs, onlyP, onlyQ, thenQ, q, agoQ);
    KeptAmongFewer(logs, onlyQ, onlyP, thenP, p, agoP);
    DeletesNoLessIff(logs, onlyP, onlyQ, thenQ, q, agoQ);
    DeletesNoLessIff(logs, onlyQ, onlyP, thenP, p, agoP);
    SameIff(onlyP, onlyQ, thenQ, thenP);
  }

  /** Two logs of a runner and an older one of another: the wider scope first leaves one log fewer. */
  lemma WiderScopeFirstLeavesFewer()
    ensures var x, y, z := Log(0, None, Some("a"), 3), Log(1, None, Some("a"), 2), Log(2, None, Some("b"), 1);
            && SizeCut({x, y, z}, {x, y}, Global, 2) && SizeCut({x, y}, {x}, OfRunner("a"), 1)
            && SizeCut({x, y, z}, {x, z}, OfRunner("a"), 1) && SizeCut({x, z}, {x, z}, Global, 2)
  {
    var x, y, z := Log(0, None, Some("a"), 3), Log(1, None, Some("a"), 2), Log(2, None, Some("b"), 1);
    assert Scoped({x, y, z}, Global) == {x, y, z} && Scoped({x, y}, Global) == {x, y};
    assert Scoped({x, y, z}, OfRunner("a")) == {x, y} == Scoped({x, y}, OfRunner("a"));
    assert Scoped({x}, OfRunner("a")) == {x} == Scoped({x, z}, OfRunner("a"));
    assert Scoped({x, z}, Global) == {x, z};
  }
}
