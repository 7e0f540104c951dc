/**
 The accounting of live resources over the log of a machine.

 Of each live resource it says that the state file lists it as outstanding, that the running command still has it in
 hand, or that it is charged to one event of the log that explains why nobody remembers it. No event carries two
 charges, and the event comes after the resource was acquired.
 */
module SharingAccounts {
  import opened Wrappers
  import opened SharingModel

  /** No record written between the two positions lists r. */
  ghost predicate Unlisted(log: seq<Event>, from: nat, to: nat, r: Resource)
    requires to <= |log|
  {
    forall j :: from < j < to && log[j].Wrote? ==> r !in log[j].listed
  }

  /** At the end of the log r has been acquired, and no record written since lists it. */
  ghost predicate InHand(log: seq<Event>, r: Resource) {
    exists a: nat :: a < |log| && log[a] == Acquired(r) && Unlisted(log, a, |log|, r)
  }

  /**
   The event at k explains that r is alive and that no record lists it: the command was killed with r in hand, releasing
   r failed after it was acquired, or its creation was reported as an error. Since then r was not acquired again, and no
   record written lists it.
   */
  ghost predicate Explains(log: seq<Event>, k: nat, r: Resource) {
    && k < |log| && Acquired(r) !in log[k..] && Unlisted(log, k, |log|, r)
    && match log[k]
       case Crash => InHand(log[..k], r)
       case CleanupFailed(q) => q == r && Acquired(r) in log[..k]
       case LostReply(q) => q == r
       case _ => false
  }

  /** The accounting: charge maps a forgotten resource to the log entry that explains it. */
  ghost predicate Accounted(
    live: set<Resource>, recorded: set<Resource>, inFlight: Option<Resource>, charge: map<Resource, nat>,
    log: seq<Event>
  ) {
    && (forall r :: r in live ==> r in recorded || r in charge || inFlight == Some(r))
    && (forall r :: r in charge ==> Explains(log, charge[r], r))
    && (forall r, s :: r in charge && s in charge && charge[r] == charge[s] ==> r == s)
    && (inFlight.Some? ==> InHand(log, inFlight.value))
  }

  /** A log in which cc-deck released, or tried to release, only what it had acquired before. */
  ghost predicate ReleasesOwnOnly(log: seq<Event>) {
    forall k :: 0 <= k < |log| && (log[k].Released? || log[k].CleanupFailed?) ==> Acquired(log[k].r) in log[..k]
  }

  /** Extending the log by an event that releases nothing, or releases something acquired, keeps the discipline. */
  lemma ReleasesOwnOnlyAppend(log: seq<Event>, e: Event)
    requires ReleasesOwnOnly(log)
    requires (e.Released? || e.CleanupFailed?) ==> Acquired(e.r) in log
    ensures ReleasesOwnOnly(log + [e])
  {
    var log' := log + [e];
    forall k | 0 <= k < |log'| && (log'[k].Released? || log'[k].CleanupFailed?)
      ensures Acquired(log'[k].r) in log'[..k]
    {
      assert log'[..k] == log[..k];
      if k == |log| {
        assert log[..k] == log;
      }
    }
  }

  lemma StaysInHand(log: seq<Event>, e: Event, r: Resource)
    requires InHand(log, r) && (e.Wrote? ==> r !in e.listed)
    ensures InHand(log + [e], r)
  {
    var a: nat :| a < |log| && log[a] == Acquired(r) && Unlisted(log, a, |log|, r);
    assert (log + [e])[a] == log[a];
    assert Unlisted(log + [e], a, |log + [e]|, r);
  }

  lemma NowInHand(log: seq<Event>, r: Resource)
    ensures InHand(log + [Acquired(r)], r)
  {
    assert (log + [Acquired(r)])[|log|] == Acquired(r);
  }

  lemma StillExplains(log: seq<Event>, e: Event, k: nat, r: Resource)
    requires Explains(log, k, r) && e != Acquired(r) && (e.Wrote? ==> r !in e.listed)
    ensures Explains(log + [e], k, r)
  {
    assert (log + [e])[..k] == log[..k] && (log + [e])[k..] == log[k..] + [e];
  }

  /**
   An event that neither acquires a charged resource nor records one that is charged or in hand keeps the accounts.
   */
  lemma EventKeepsAccounts(
    live: set<Resource>, recorded: set<Resource>, inFlight: Option<Resource>, charge: map<Resource, nat>,
    log: seq<Event>, e: Event
  )
    requires Accounted(live, recorded, inFlight, charge, log)
    requires e.Acquired? ==> e.r !in charge
    requires e.Wrote? ==> inFlight.Some? ==> inFlight.value !in e.listed
    requires e.Wrote? ==> forall r :: r in charge ==> r !in e.listed
    ensures Accounted(live, recorded, inFlight, charge, log + [e])
  {
    forall r | r in charge ensures Explains(log + [e], charge[r], r) {
      StillExplains(log, e, charge[r], r);
    }
    if inFlight.Some? {
      StaysInHand(log, e, inFlight.value);
    }
  }

  /**
   An event may take the charge of a resource that nobody will remember: its own failure, or a kill with it in hand.
   */
  lemma ChargeKeepsAccounts(
    live: set<Resource>, recorded: set<Resource>, inFlight: Option<Resource>, charge: map<Resource, nat>,
    log: seq<Event>, e: Event, r: Resource
  )
    requires Accounted(live, recorded, inFlight, charge, log)
    requires e == LostReply(r) || (e == CleanupFailed(r) && Acquired(r) in log) || (e == Crash && inFlight == Some(r))
    ensures Accounted(
      live + {r}, recorded, if inFlight == Some(r) then None else inFlight, charge[r := |log|], log + [e])
  {
    var log' := log + [e];
    assert log'[|log|] == e && log'[..|log|] == log && log'[|log|..] == [e];
    forall s | s in charge && s != r ensures Explains(log', charge[s], s) {
      StillExplains(log, e, charge[s], s);
    }
    if inFlight.Some? {
      StaysInHand(log, e, inFlight.value);
    }
  }

  /** A resource that was just acquired is in hand; an earlier charge for it is void. */
  lemma AcquiringKeepsAccounts(
    live: set<Resource>, recorded: set<Resource>, charge: map<Resource, nat>, log: seq<Event>, r: Resource
  )
    requires Accounted(live, recorded, None, charge, log)
    ensures Accounted(live + {r}, recorded, Some(r), charge - {r}, log + [Acquired(r)])
  {
    assert Accounted(live - {r}, recorded, None, charge - {r}, log);
    EventKeepsAccounts(live - {r}, recorded, None, charge - {r}, log, Acquired(r));
    NowInHand(log, r);
  }

  // ---- What the accounts say ----

  /** The log entries that carry a charge. */
  ghost function ChargedEntries(live: set<Resource>, recorded: set<Resource>, charge: map<Resource, nat>): set<nat> {
    set r | r in live && r !in recorded && r in charge :: charge[r]
  }

  /**
   Between commands, the resources that are live and not listed as outstanding are no more than the log entries
   they are charged to, and every such entry is a crash, a failed cleanup or a lost reply.
   */
  lemma ForgottenResourcesAreBounded(
    live: set<Resource>, recorded: set<Resource>, charge: map<Resource, nat>, log: seq<Event>
  )
    requires Accounted(live, recorded, None, charge, log)
    ensures |live - recorded| == |ChargedEntries(live, recorded, charge)|
    ensures forall k :: k in ChargedEntries(live, recorded, charge) ==>
              k < |log| && (log[k].Crash? || log[k].CleanupFailed? || log[k].LostReply?)
    decreases live
  {
    if forgotten :| forgotten in live && forgotten !in recorded {
      var rest := live - {forgotten};
      ForgottenResourcesAreBounded(rest, recorded, charge, log);
      assert live - recorded == (rest - recorded) + {forgotten};
      OneMoreCharged(live, recorded, charge, log, forgotten);
    } else {
      assert live - recorded == {};
      assert ChargedEntries(live, recorded, charge) == {};
    }
  }

  lemma OneMoreCharged(
    live: set<Resource>, recorded: set<Resource>, charge: map<Resource, nat>, log: seq<Event>, r: Resource
  )
    requires Accounted(live, recorded, None, charge, log) && r in live && r !in recorded
    ensures charge[r] !in ChargedEntries(live - {r}, recorded, charge)
    ensures ChargedEntries(live, recorded, charge) == ChargedEntries(live - {r}, recorded, charge) + {charge[r]}
  {
  }

  /** The position at which r was acquired for the last time. */
  function LastAcquired(log: seq<Event>, r: Resource): (a: nat)
    requires Acquired(r) in log
    ensures a < |log| && log[a] == Acquired(r)
    ensures forall j :: a < j < |log| ==> log[j] != Acquired(r)
  {
    var n := |log| - 1;
    if log[n] == Acquired(r) then n else LastAcquired(log[..n], r)
  }

  /**
   A live resource that no record lists, and whose creation was never answered by an error, was acquired, and after
   the last time it was, either releasing it failed, with no record written since that lists it, or a command was
   killed, with no record written since the acquisition that lists it. So a kill or a failure from before explains
   nothing.
   */
  lemma WithoutLostRepliesOnlyCrashesAndFailedCleanupsForget(
    live: set<Resource>, recorded: set<Resource>, charge: map<Resource, nat>, log: seq<Event>, r: Resource
  )
    requires Accounted(live, recorded, None, charge, log)
    requires LostReply(r) !in log
    requires r in live && r !in recorded
    ensures r in charge && charge[r] < |log| && Acquired(r) in log && LastAcquired(log, r) < charge[r]
    ensures log[charge[r]] == CleanupFailed(r) || log[charge[r]] == Crash
    ensures Unlisted(log, if log[charge[r]] == Crash then LastAcquired(log, r) else charge[r], |log|, r)
  {
    var k := charge[r];
    assert log[k] in log;
    assert forall e :: e in log[..k] ==> e in log;
    assert forall j :: k <= j < |log| ==> log[j] in log[k..];
    var last := LastAcquired(log, r);
    if log[k] == Crash {
      var a: nat :| a < k && log[..k][a] == Acquired(r) && Unlisted(log[..k], a, k, r);
      assert log[a] == Acquired(r) && a <= last < k;
      forall j | last < j < |log| && log[j].Wrote? ensures r !in log[j].listed {
        assert j < k ==> log[..k][j] == log[j];
      }
    } else {
      var a :| 0 <= a < k && log[..k][a] == Acquired(r);
      assert log[a] == Acquired(r);
    }
  }

  /** A live resource that no record lists and that was never acquired is charged to the lost reply that created it. */
  lemma NeverAcquiredMeansLostReply(
    live: set<Resource>, recorded: set<Resource>, charge: map<Resource, nat>, log: seq<Event>, r: Resource
  )
    requires Accounted(live, recorded, None, charge, log)
    requires r in live && r !in recorded && Acquired(r) !in log
    ensures r in charge && charge[r] < |log| && log[charge[r]] == LostReply(r)
  {
    var k := charge[r];
    assert forall e :: e in log[..k] ==> e in log;
  }

  /** And so it can be: a start whose first call lost its reply, with no kill and no failed cleanup anywhere. */
  lemma ALostReplyForgets(server: Resource)
    ensures var log := [Wrote(StateStarting, {}), LostReply(server)];
      && Accounted({server}, {}, None, map[server := 1], log) && ReleasesOwnOnly(log)
      && (forall e :: e in log ==> !e.Crash? && !e.CleanupFailed?)
  {
    var log := [Wrote(StateStarting, {}), LostReply(server)];
    assert log[1..] == [LostReply(server)];
  }
}
