/** The transaction ids that a run hands out, and exactly when one laps a pending query. */
module ResolverIds {
  import opened DnsTypes
  import opened ResolverNet
  import opened ResolverRuns
  import opened ResolverQueries
  import opened ResolverTimeouts

  // ---------------------------------------------------------------- the ids of a run

  // The request finds no pending query for its resource, and so takes an id.
  predicate IsNew(s: State, e: Event) { e.Start? && e.key !in s.net.byRes }

  // The number of ids taken before step i.
  function Ids(states: seq<State>, es: seq<Event>, i: nat): nat
    requires i <= |es| < |states|
  {
    if i == 0 then 0 else Ids(states, es, i - 1) + Bit(IsNew(states[i - 1], es[i - 1]))
  }

  lemma {:induction false} IdsGrow(states: seq<State>, es: seq<Event>, a: nat, i: nat)
    requires a <= i <= |es| < |states|
    ensures Ids(states, es, a) <= Ids(states, es, i)
    decreases i
  {
    if a < i { IdsGrow(states, es, a, i - 1); }
  }

  // Any steps that are possible, whether or not an id laps.
  ghost predicate TraceAt(states: seq<State>, es: seq<Event>, qretr: nat, i: nat) {
    i < |es| && i + 1 < |states| && Enabled(states[i], es[i]) && states[i + 1] == Step(states[i], es[i], qretr)
  }

  ghost predicate IsTrace(states: seq<State>, es: seq<Event>, qretr: nat) {
    |states| == |es| + 1 && forall i: nat :: i < |es| ==> TraceAt(states, es, qretr, i)
  }

  lemma RunIsTrace(states: seq<State>, es: seq<Event>, qretr: nat)
    requires IsRun(states, es, qretr)
    ensures IsTrace(states, es, qretr)
  {
    hide Enabled, Step, LapsAt;
    forall i: nat | i < |es| ensures TraceAt(states, es, qretr, i) { assert StepAt(states, es, qretr, i); }
  }

  lemma StepId(s: State, e: Event, qretr: nat)
    requires Enabled(s, e)
    ensures Step(s, e, qretr).net.lastId == if IsNew(s, e) then NextId(s.net.lastId) else s.net.lastId
  {}

  // The next id is the one after as many as were taken.
  lemma {:induction false} NextIdOfRun(states: seq<State>, es: seq<Event>, qretr: nat, i: nat)
    requires IsTrace(states, es, qretr) && states[0] == Initial && i <= |es|
    ensures states[i].net.lastId == IdAfter(Ids(states, es, i))
  {
    if i > 0 {
      NextIdOfRun(states, es, qretr, i - 1);
      assert TraceAt(states, es, qretr, i - 1);
      hide Enabled, Step, NextId, IsNew;
      StepId(states[i - 1], es[i - 1], qretr);
    }
  }

  lemma EnteredId(s: State, e: Event, qretr: nat, r: Ref)
    requires Enabled(s, e) && e.Start? && e.sent && e.key !in s.net.byRes && AllocRef(s.net) == r
    ensures r < |Step(s, e, qretr).net.nodes| && Step(s, e, qretr).net.nodes[r].id == s.net.lastId
  {}

  // A pending query has the id that was next when it was entered.
  lemma {:induction false} PendingId(states: seq<State>, es: seq<Event>, qretr: nat, r: Ref, a: nat, i: nat)
    requires IsRun(states, es, qretr) && states[0] == Initial && PendingSince(states, es, r, a, i)
    ensures IsPendingIn(states[i].net, r) && states[i].net.nodes[r].id == IdAfter(Ids(states, es, a))
    decreases i
  {
    if i == a + 1 {
      RunIsTrace(states, es, qretr);
      NextIdOfRun(states, es, qretr, a);
      assert StepAt(states, es, qretr, a);
      hide IsRun, Enabled, Step, IdAfter, Ids;
      EnteredId(states[a], es[a], qretr, r);
    } else {
      hide IsRun, IdAfter, Ids;
      PendingId(states, es, qretr, r, a, i - 1);
      RunPending(states, es, qretr, i - 1, r);
    }
  }

  lemma SameId(m: nat, n: nat)
    requires m <= n
    ensures IdAfter(m) == IdAfter(n) <==> (n - m) % 0xFFFF == 0
  {
    IdAfterIs(m);
    IdAfterIs(n);
    var a, b := m / 0xFFFF, n / 0xFFFF;
    assert m == 0xFFFF * a + m % 0xFFFF && n == 0xFFFF * b + n % 0xFFFF;
    assert n - m == 0xFFFF * (b - a) + (n % 0xFFFF - m % 0xFFFF);
  }

  // ---------------------------------------------------------------- when an id laps

  // Since some query that is still pending was entered, a multiple of 65535 ids have been taken.
  ghost predicate ComesRound(states: seq<State>, es: seq<Event>, i: nat)
    requires i <= |es| < |states|
  {
    exists r: Ref, a: nat :: PendingSince(states, es, r, a, i) && (Ids(states, es, i) - Ids(states, es, a)) % 0xFFFF == 0
  }

  // A new query would lap a pending one if and only if the ids have come round to it.
  lemma LapsExactly(states: seq<State>, es: seq<Event>, qretr: nat, i: nat, key: Key)
    requires IsRun(states, es, qretr) && states[0] == Initial && i <= |es| && key !in states[i].net.byRes
    ensures Laps(states[i].net, key, true) <==> ComesRound(states, es, i)
  {
    var s := states[i].net;
    hide IsRun, IdAfter, Ids, PendingSince;
    if s.lastId in s.byId {
      var r := s.byId[s.lastId];
      LastIdPending(states, es, qretr, i);
      var a := PendingWasEntered(states, es, qretr, i, r);
      RoundTo(states, es, qretr, r, a, i);
    }
    if r: Ref, a: nat :| PendingSince(states, es, r, a, i) && (Ids(states, es, i) - Ids(states, es, a)) % 0xFFFF == 0 {
      RoundTo(states, es, qretr, r, a, i);
    }
  }

  lemma LastIdPending(states: seq<State>, es: seq<Event>, qretr: nat, i: nat)
    requires IsRun(states, es, qretr) && states[0] == Initial && i <= |es| && states[i].net.lastId in states[i].net.byId
    ensures var s := states[i].net; IsPendingIn(s, s.byId[s.lastId]) && s.nodes[s.byId[s.lastId]].id == s.lastId
  {
    RunNet(states, es, qretr, i);
  }

  // A pending query has the next id if and only if the ids have come round to it.
  lemma RoundTo(states: seq<State>, es: seq<Event>, qretr: nat, r: Ref, a: nat, i: nat)
    requires IsRun(states, es, qretr) && states[0] == Initial && PendingSince(states, es, r, a, i)
    ensures a < i <= |es| && IsPendingIn(states[i].net, r) && states[i].net.nodes[r].id in states[i].net.byId
    ensures states[i].net.nodes[r].id == states[i].net.lastId <==> (Ids(states, es, i) - Ids(states, es, a)) % 0xFFFF == 0
  {
    SinceBefore(states, es, r, a, i);
    PendingId(states, es, qretr, r, a, i);
    RunIsTrace(states, es, qretr);
    NextIdOfRun(states, es, qretr, i);
    RunNet(states, es, qretr, i);
    assert states[i].net.nodes[r].id in states[i].net.byId;
    hide NetOk, IsRun, IdAfter, Ids;
    IdsGrow(states, es, a, i);
    SameId(Ids(states, es, a), Ids(states, es, i));
  }

  lemma SinceBefore(states: seq<State>, es: seq<Event>, r: Ref, a: nat, i: nat)
    requires PendingSince(states, es, r, a, i)
    ensures a < i <= |es| < |states|
  {}

  ghost predicate SendsNew(states: seq<State>, es: seq<Event>, i: nat) {
    i < |es| && i < |states| && IsNew(states[i], es[i]) && es[i].sent
  }

  // The same up to step n.
  lemma {:induction false} PrefixIds(states: seq<State>, es: seq<Event>, n: nat, i: nat)
    requires i <= n <= |es| < |states|
    ensures Ids(states[..n + 1], es[..n], i) == Ids(states, es, i)
  {
    if i > 0 { PrefixIds(states, es, n, i - 1); }
  }

  lemma PrefixSince(states: seq<State>, es: seq<Event>, n: nat, r: Ref, a: nat, i: nat)
    requires i <= n <= |es| < |states|
    ensures PendingSince(states[..n + 1], es[..n], r, a, i) <==> PendingSince(states, es, r, a, i)
  {
    var states', es' := states[..n + 1], es[..n];
    if a < i {
      assert states'[a] == states[a] && es'[a] == es[a];
      assert forall k :: a < k <= i ==> states'[k] == states[k];
    }
  }

  lemma PrefixComesRound(states: seq<State>, es: seq<Event>, n: nat, i: nat)
    requires i <= n <= |es| < |states|
    ensures ComesRound(states[..n + 1], es[..n], i) <==> ComesRound(states, es, i)
  {
    hide PendingSince, Ids;
    var states', es' := states[..n + 1], es[..n];
    forall r: Ref, a: nat ensures PendingSince(states', es', r, a, i) <==> PendingSince(states, es, r, a, i) {
      PrefixSince(states, es, n, r, a, i);
    }
    forall a: nat | a <= i ensures Ids(states', es', a) == Ids(states, es, a) { PrefixIds(states, es, n, a); }
    forall r: Ref, a: nat | PendingSince(states, es, r, a, i) ensures a < i { SinceBefore(states, es, r, a, i); }
  }

  lemma {:induction false} PrefixIsRun(states: seq<State>, es: seq<Event>, qretr: nat, n: nat)
    requires IsTrace(states, es, qretr) && states[0] == Initial && n <= |es|
    requires forall i: nat :: i < n && SendsNew(states, es, i) ==> !ComesRound(states, es, i)
    ensures IsRun(states[..n + 1], es[..n], qretr)
  {
    if n > 0 {
      hide ComesRound, SendsNew;
      PrefixIsRun(states, es, qretr, n - 1);
      var states', es' := states[..n], es[..n - 1];
      hide IsRun;
      PrefixStep(states, es, qretr, n - 1);
      Extended(states', es', qretr, es[n - 1]);
      assert states' + [states[n]] == states[..n + 1] && es' + [es[n - 1]] == es[..n];
    }
  }

  lemma PrefixStep(states: seq<State>, es: seq<Event>, qretr: nat, n: nat)
    requires IsTrace(states, es, qretr) && states[0] == Initial && n < |es| && IsRun(states[..n + 1], es[..n], qretr)
    requires SendsNew(states, es, n) ==> !ComesRound(states, es, n)
    ensures Enabled(states[n], es[n]) && !LapsAt(states[n], es[n]) && states[n + 1] == Step(states[n], es[n], qretr)
  {
    assert TraceAt(states, es, qretr, n);
    hide Enabled, Step, IsTrace, IsRun, ComesRound;
    if LapsAt(states[n], es[n]) {
      PrefixComesRound(states, es, n, n);
      LapsExactly(states[..n + 1], es[..n], qretr, n, es[n].key);
    }
  }

  // No id laps, as the other theorems about runs ask, if and only if whenever a new query is sent the ids
  // have not come round to one that is pending.
  lemma RunExactly(states: seq<State>, es: seq<Event>, qretr: nat)
    requires IsTrace(states, es, qretr) && states[0] == Initial
    ensures IsRun(states, es, qretr) <==> forall i: nat :: i < |es| && SendsNew(states, es, i) ==> !ComesRound(states, es, i)
  {
    assert |states| == |es| + 1;
    hide IsTrace, ComesRound, Enabled, Step;
    if IsRun(states, es, qretr) {
      forall i: nat | i < |es| && SendsNew(states, es, i) ensures !ComesRound(states, es, i) {
        assert StepAt(states, es, qretr, i);
        LapsExactly(states, es, qretr, i, es[i].key);
      }
    }
    if forall i: nat :: i < |es| && SendsNew(states, es, i) ==> !ComesRound(states, es, i) {
      PrefixIsRun(states, es, qretr, |es|);
      assert states[..|es| + 1] == states && es[..|es|] == es;
    }
  }

  // In particular when fewer than 65535 new queries start while any one is pending.
  lemma FewQueriesNeverLap(states: seq<State>, es: seq<Event>, qretr: nat)
    requires IsTrace(states, es, qretr) && states[0] == Initial
    requires forall r: Ref, a: nat, i: nat :: i <= |es| && PendingSince(states, es, r, a, i) ==> Ids(states, es, i) < Ids(states, es, a) + 0xFFFF
    ensures IsRun(states, es, qretr)
  {
    assert |states| == |es| + 1;
    hide IsTrace, IsRun, PendingSince, Ids;
    forall i: nat | i < |es| ensures !ComesRound(states, es, i) {
      forall r: Ref, a: nat | PendingSince(states, es, r, a, i) ensures a < i && (Ids(states, es, i) - Ids(states, es, a)) % 0xFFFF != 0 {
        TakesOne(states, es, r, a, i);
        NotRound(Ids(states, es, a), Ids(states, es, i));
      }
    }
    hide ComesRound;
    RunExactly(states, es, qretr);
  }

  lemma NotRound(m: nat, n: nat)
    requires m < n < m + 0xFFFF
    ensures (n - m) % 0xFFFF != 0
  {}

  lemma TakesOne(states: seq<State>, es: seq<Event>, r: Ref, a: nat, i: nat)
    requires PendingSince(states, es, r, a, i)
    ensures a < i <= |es| < |states| && Ids(states, es, a) < Ids(states, es, i)
  {
    IdsGrow(states, es, a + 1, i);
  }
}
