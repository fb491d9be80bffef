/** The protocol never gets stuck, with one exception: from every reachable state
    of a running process there is a continuation, without ending the process, that
    brings the server's position past the whole log, unless a send has failed
    locally. */
module Progress {
  import opened Common
  import opened Ring
  import opened Protocol
  import opened Invariant
  import opened Preservation
  import opened Guarantees
  import opened SnapshotGuarantees

  // Taking the steps from `s` leads to `t`, the process running all the time.
  ghost predicate Leads(s: Sys, steps: seq<Step>, t: Sys)
    decreases |steps|
  {
    if steps == [] then s == t
    else s.proc.Some? && Enabled(s, steps[0]) && Leads(Apply(s, steps[0]), steps[1..], t)
  }

  lemma {:induction false} LeadsConcat(s: Sys, a: seq<Step>, t: Sys, b: seq<Step>, u: Sys)
    requires Leads(s, a, t) && Leads(t, b, u)
    ensures Leads(s, a + b, u)
    decreases |a|
  {
    if a == [] {
      assert a + b == b;
    } else {
      assert (a + b)[1..] == a[1..] + b;
      LeadsConcat(Apply(s, a[0]), a[1..], t, b, u);
    }
  }

  // Running, everything received, nothing outstanding.
  ghost predicate Finished(s: Sys) {
    && s.proc.Some?
    && var c := s.proc.value;
    && c.next == |s.log| && !c.inTxn && c.loaded && c.envelopes == map[] && c.failed == {}
  }

  // ---- choosing the next step ----

  ghost function Unstored(c: Client): set<Event> {
    c.envelopes.Keys - c.appended
  }

  lemma {:induction false} EarliestEvent(es: set<Event>) returns (e: Event)
    requires es != {}
    ensures e in es && forall d :: d in es ==> !Before(d, e)
    decreases |es|
  {
    var some :| some in es;
    e := some;
    if es - {some} == {} {
      assert es == {some};
    } else {
      var d := EarliestEvent(es - {some});
      if Before(d, some) {
        e := d;
      }
      forall x | x in es
        ensures !Before(x, e)
      {
        assert x == some || x in es - {some};
      }
    }
  }

  ghost function RowsLeft(s: Sys, c: Client): nat {
    if c.inTxn && c.next < |s.log| && c.row <= |s.log[c.next].rows|
    then 2 * (|s.log[c.next].rows| - c.row) + (if c.sending then 0 else 1)
    else 0
  }

  // A measure that each chosen step brings down.
  ghost predicate Less(s: Sys, c: Client, c': Client)
    requires c.next <= |s.log|
  {
    || c.next < c'.next <= |s.log|
    || (c.next == c'.next && !c.loaded && c'.loaded)
    || (c.next == c'.next && c.loaded == c'.loaded && !c.inTxn && c'.inTxn)
    || (c.next == c'.next && c.loaded == c'.loaded && c.inTxn == c'.inTxn && RowsLeft(s, c') < RowsLeft(s, c))
    || (c.next == c'.next && c.loaded == c'.loaded && c.inTxn == c'.inTxn && RowsLeft(s, c') == RowsLeft(s, c)
        && |Unstored(c')| < |Unstored(c)|)
    || (c.next == c'.next && c.loaded == c'.loaded && c.inTxn == c'.inTxn && RowsLeft(s, c') == RowsLeft(s, c)
        && |Unstored(c')| == |Unstored(c)| && |c'.envelopes| < |c.envelopes|)
  }

  // The step is possible, keeps the process free of failures and gets it closer
  // to the end.
  ghost predicate Good(s: Sys, c: Client, step: Step) {
    && c.next <= |s.log|
    && ClientEnabled(s, c, step)
    && var s' := ClientApply(s, c, step);
    && s'.proc.Some? && s'.log == s.log && s'.proc.value.failed == {}
    && Less(s, c, s'.proc.value)
  }

  lemma AppendGood(s: Sys, c: Client, e: Event)
    requires c.next <= |s.log| && s.proc == Some(c) && c.failed == {}
    requires e in Unstored(c) && forall d :: d in Unstored(c) ==> !Before(d, e)
    ensures Good(s, c, Append(e))
  {
    assert CanAppend(s, c, e);
    var c' := c.(appended := c.appended + {e});
    assert Unstored(c') == Unstored(c) - {e};
    assert RowsLeft(s, c') == RowsLeft(s, c);
  }

  lemma DeliverGood(s: Sys, c: Client, e: Event)
    requires c.next <= |s.log| && s.proc == Some(c) && c.failed == {} && Unstored(c) == {}
    requires CanDeliver(s, c, e, true)
    ensures Good(s, c, Deliver(e, true))
  {
  }

  lemma ReportStep(s: Sys, c: Client) returns (step: Step)
    requires ClientInv(s, c) && s.proc == Some(c) && c.failed == {} && c.envelopes != map[]
    ensures Good(s, c, step)
  {
    if Unstored(c) != {} {
      var e := EarliestEvent(Unstored(c));
      AppendGood(s, c, e);
      step := Append(e);
    } else {
      var e :| e in c.envelopes;
      assert e in c.envelopes.Keys + c.failed;
      DeliverGood(s, c, e);
      step := Deliver(e, true);
    }
  }

  lemma ReceiveStep(s: Sys, c: Client) returns (step: Step)
    requires ClientInv(s, c) && s.proc == Some(c) && c.failed == {} && c.envelopes == map[] && c.inTxn
    ensures Good(s, c, step)
  {
    if c.sending {
      step := Enqueue;
    } else if c.row == |s.log[c.next].rows| {
      step := Commit;
    } else if Sendable(RowOf(s.log, c.Current()), c.active) {
      step := StartSend;
    } else {
      step := Skip;
    }
  }

  lemma BetweenStep(s: Sys, c: Client) returns (step: Step)
    requires ClientInv(s, c) && s.proc == Some(c) && c.failed == {} && c.envelopes == map[] && !c.inTxn
    requires !Finished(s)
    ensures Good(s, c, step)
  {
    if !c.loaded {
      step := Reload(c.active);
    } else {
      assert Charged(c) == {};
      assert c.ctx.Empty();
      step := Begin(0);
    }
  }

  lemma ChooseStep(s: Sys, c: Client) returns (step: Step)
    requires ClientInv(s, c) && s.proc == Some(c) && c.failed == {} && !Finished(s)
    ensures Good(s, c, step)
  {
    if c.envelopes != map[] {
      step := ReportStep(s, c);
    } else if c.inTxn {
      step := ReceiveStep(s, c);
    } else {
      step := BetweenStep(s, c);
    }
  }

  // ---- finishing ----

  lemma Advance(s: Sys, c: Client) returns (step: Step, s': Sys, c': Client)
    requires Inv(s) && s.proc == Some(c) && c.failed == {} && !Finished(s)
    ensures Enabled(s, step) && s' == Apply(s, step)
    ensures Inv(s') && s'.proc == Some(c') && s'.log == s.log && c'.failed == {}
    ensures c.next <= |s.log| && c'.next <= |s.log| && Less(s, c, c')
  {
    step := ChooseStep(s, c);
    s' := ClientApply(s, c, step);
    c' := s'.proc.value;
    StepKeeps(s, step);
  }

  lemma {:induction false} FinishFrom(s: Sys, c: Client) returns (steps: seq<Step>, t: Sys)
    requires Inv(s) && s.proc == Some(c) && c.failed == {} && c.next <= |s.log|
    ensures Leads(s, steps, t) && Inv(t) && Finished(t) && t.log == s.log
    decreases |s.log| - c.next, !c.loaded, !c.inTxn, RowsLeft(s, c), |Unstored(c)|, |c.envelopes|
  {
    if Finished(s) {
      return [], s;
    }
    var step, s', c' := Advance(s, c);
    assert RowsLeft(s', c') == RowsLeft(s, c');
    var rest;
    rest, t := FinishFrom(s', c');
    steps := [step] + rest;
    assert steps[1..] == rest;
  }

  lemma Finish(s: Sys) returns (steps: seq<Step>, t: Sys)
    requires Inv(s) && s.proc.Some? && s.proc.value.failed == {}
    ensures Leads(s, steps, t) && Inv(t) && Finished(t) && t.log == s.log
  {
    steps, t := FinishFrom(s, s.proc.value);
  }

  // Above every commit of the log.
  ghost predicate AllFlushed(s: Sys) {
    forall i :: 0 <= i < |s.log| ==> s.log[i].commit <= s.flushed
  }

  ghost function LastCommit(s: Sys): Lsn {
    if s.log == [] then s.start else s.log[|s.log| - 1].commit
  }

  lemma FlushAll(s: Sys) returns (steps: seq<Step>, t: Sys)
    requires Inv(s) && Finished(s)
    ensures Leads(s, steps, t) && t.proc.Some? && t.log == s.log && AllFlushed(t)
  {
    var c := s.proc.value;
    assert Charged(c) == {};
    assert c.ctx.Empty();
    var k := Keepalive(LastCommit(s));
    var s1 := ClientApply(s, c, k);
    t := ClientApply(s1, s1.proc.value, Status(true));
    steps := [k, Status(true)];
    assert t.flushed >= LastCommit(s);
    assert steps[1..] == [Status(true)] && [Status(true)][1..] == [];
    assert Leads(t, [], t);
    assert Leads(s1, [Status(true)], t);
  }

  /** From every reachable state of a process without local send failures, the
      server's position can be brought past every commit of the log, with the
      process running throughout. */
  lemma CanAlwaysFlush(s: Sys) returns (steps: seq<Step>, t: Sys)
    requires Reached(s) && s.proc.Some? && s.proc.value.failed == {}
    ensures Leads(s, steps, t) && t.proc.Some? && t.log == s.log && AllFlushed(t)
  {
    ReachedInv(s);
    var most, mid := Finish(s);
    var last;
    last, t := FlushAll(mid);
    LeadsConcat(s, most, mid, last, t);
    steps := most + last;
  }

  lemma {:induction false} FailureStays(s: Sys, steps: seq<Step>, t: Sys, e: Event)
    requires Inv(s) && NoSnapshotRow(s) && s.proc.Some? && e in s.proc.value.failed
    requires Leads(s, steps, t) && t.proc.Some?
    ensures Inv(t) && NoSnapshotRow(t) && e in t.proc.value.failed
    decreases |steps|
  {
    if steps == [] {
    } else {
      StepKeeps(s, steps[0]);
      NoSnapshotRowStep(s, steps[0]);
      var s' := Apply(s, steps[0]);
      assert s'.proc.Some?;
      FailedStays(s, s.proc.value, steps[0], e);
      FailureStays(s', steps[1..], t, e);
    }
  }

  lemma FailureUnflushed(s: Sys, c: Client, e: Event)
    requires Inv(s) && NoSnapshotRow(s) && s.proc == Some(c) && e in c.failed
    ensures !AllFlushed(s)
  {
  }

  // A continuation with the process running throughout that flushes everything.
  ghost predicate FlushesBy(s: Sys, steps: seq<Step>, t: Sys) {
    Leads(s, steps, t) && t.proc.Some? && t.log == s.log && AllFlushed(t)
  }

  /** A running process can still get everything acknowledged if and only if none
      of its sends has failed locally. */
  lemma CanFlushIff(s: Sys)
    requires Reached(s) && s.proc.Some?
    ensures (exists steps, t :: FlushesBy(s, steps, t)) <==> s.proc.value.failed == {}
  {
    ReachedInv(s);
    ReachedNoSnapshotRow(s);
    if s.proc.value.failed == {} {
      var steps, t := CanAlwaysFlush(s);
      assert FlushesBy(s, steps, t);
    } else {
      var e :| e in s.proc.value.failed;
      forall steps, t | FlushesBy(s, steps, t)
        ensures false
      {
        FailureStays(s, steps, t, e);
        FailureUnflushed(t, t.proc.value, e);
      }
    }
  }
}
