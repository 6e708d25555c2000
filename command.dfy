/**
 The `sync` and `status` commands. The state file is modelled as the history
 of sets saved to it, oldest first; loading reads the last one. The three
 `is_goodlinks_running()` probes a sync may make, the enumeration script's
 result and the server's answers are inputs.
 */
module Command {
  import opened Wrappers
  import opened Text
  import opened Links
  import opened PendingLinks
  import opened Publisher
  import opened Sync
  import opened Lifecycle

  /** `load_synced_ids()`: the last saved set, or the empty set when nothing was ever saved. */
  function Load(history: seq<set<Id>>): (s: set<Id>)
  {
    if history == [] then {} else history[|history| - 1]
  }

  /** Saving `s` and loading again gives `s`. */
  lemma LoadAfterSave(history: seq<set<Id>>, s: set<Id>)
    ensures Load(history + [s]) == s
  {
  }

  /** The answers of the three `is_goodlinks_running()` probes a sync may make, in order. */
  datatype AppProbes = AppProbes(wasRunning: bool, runningAtCheck: bool, runningAfterLaunch: bool)

  /** How a sync run ends. */
  datatype RunOutcome =
    | NotReady                                  // the guard failed; the run returns before its `try`
    | SourceUnavailable(error: SourceError)     // `get_goodlinks` raised
    | DryRun(pending: seq<Link>, total: nat)    // `--dry-run`: what would be published
    | NothingToSync(total: nat)
    | Done(newCount: nat, failedCount: nat)
    | AuthFailed(item: nat)                     // the 403 raised while publishing pending link `item`

  /**
   A run: its outcome, whether it launched and whether it tried to quit
   GoodLinks, the state file's history afterwards and the number of
   requests sent.
   */
  datatype SyncReport = SyncReport(
    outcome: RunOutcome, launched: bool, quitAttempted: bool, history: seq<set<Id>>, requests: nat)

  /**
   `cmd_sync`: the guard decides whether the run goes on; from then on the
   `finally` quits GoodLinks exactly when it was not running at the start.
   A failed enumeration, a dry run and an empty pending list publish and save
   nothing; otherwise the pending links go through the publish loop, whose
   saves are appended to the state file's history.
   */
  method CmdSync(launchIfNeeded: bool, app: AppProbes, script: ScriptRun, history: seq<set<Id>>,
                 net: Network, dryRun: bool, maxRetries: int)
    returns (report: SyncReport)
    ensures var g := EnsureRunning(launchIfNeeded, app.runningAtCheck, app.runningAfterLaunch);
            && report.launched == g.launched
            && report.quitAttempted == (g.ready && !app.wasRunning)
            && (!g.ready ==> report.outcome == NotReady)
            && (g.ready && script.returnCode != 0 ==>
                  && report.outcome.SourceUnavailable?
                  && (report.outcome.error == NotReachable <==>
                        Contains(script.stderr, "No such process") || Contains(script.stderr, "not running"))
                  && (report.outcome.error.ScriptFailed? ==> report.outcome.error.stderr == script.stderr))
    ensures !report.outcome.Done? && !report.outcome.AuthFailed? ==>
              report.history == history && report.requests == 0
    ensures var links := RecordsOf(Lines(script.stdout));
            var synced0 := Load(history);
            var toSync := Pending(links, synced0);
            EnsureRunning(launchIfNeeded, app.runningAtCheck, app.runningAfterLaunch).ready
            && script.returnCode == 0 ==>
              && (dryRun ==> report.outcome == DryRun(toSync, |links|))
              && (!dryRun && toSync == [] ==> report.outcome == NothingToSync(|links|))
              && (!dryRun && toSync != [] ==> report.outcome.Done? || report.outcome.AuthFailed?)
              && (report.outcome.Done? ==>
                    && Reaches(net, maxRetries, |toSync|)
                    && report.outcome.newCount == CountOf(net, maxRetries, |toSync|, Added)
                    && report.outcome.failedCount == CountOf(net, maxRetries, |toSync|, NotAdded)
                    && report.history == history + PeriodicSaves(toSync, synced0, net, maxRetries, |toSync|)
                                         + [Snapshot(toSync, synced0, net, maxRetries, |toSync|)]
                    && report.requests == CallBase(net, maxRetries, |toSync|))
              && (report.outcome.AuthFailed? ==>
                    && report.outcome.item < |toSync|
                    && Reaches(net, maxRetries, report.outcome.item)
                    && Call(net, maxRetries, report.outcome.item).outcome == AuthRejected
                    && report.history == history + PeriodicSaves(toSync, synced0, net, maxRetries, report.outcome.item)
                    && report.requests == CallBase(net, maxRetries, report.outcome.item + 1))
  {
    var g := EnsureRunning(launchIfNeeded, app.runningAtCheck, app.runningAfterLaunch);
    if !g.ready {
      return SyncReport(NotReady, g.launched, false, history, 0);
    }
    var quit := !app.wasRunning;
    var got := GetLinks(script);
    if got.Failure? {
      return SyncReport(SourceUnavailable(got.error), g.launched, quit, history, 0);
    }
    var links := got.value;
    var synced := Load(history);
    var toSync := Pending(links, synced);
    if dryRun {
      return SyncReport(DryRun(toSync, |links|), g.launched, quit, history, 0);
    }
    if toSync == [] {
      return SyncReport(NothingToSync(|links|), g.launched, quit, history, 0);
    }
    var end, _, saves, calls := SyncLoop(toSync, synced, net, maxRetries);
    match end {
      case Completed(newCount, failedCount) =>
        report := SyncReport(Done(newCount, failedCount), g.launched, quit, history + saves, calls);
      case AuthAborted(item) =>
        report := SyncReport(AuthFailed(item), g.launched, quit, history + saves, calls);
    }
  }

  /** Without a failed call, every call of a run that did not raise added its link. */
  lemma {:induction false} NoFailureAllAdded(net: Network, maxRetries: int, n: nat)
    requires Reaches(net, maxRetries, n) && CountOf(net, maxRetries, n, NotAdded) == 0
    ensures forall k :: 0 <= k < n ==> Call(net, maxRetries, k).outcome == Added
  {
    if n > 0 {
      NoFailureAllAdded(net, maxRetries, n - 1);
    }
  }

  /**
   A completed run without failures leaves nothing pending: loading the
   last save and filtering the same links again gives the empty list.
   */
  lemma CompletedRunLeavesNothingPending(links: seq<Link>, synced0: set<Id>, net: Network, maxRetries: int)
    requires var toSync := Pending(links, synced0);
             Reaches(net, maxRetries, |toSync|) && CountOf(net, maxRetries, |toSync|, NotAdded) == 0
    ensures var toSync := Pending(links, synced0);
            Pending(links, Snapshot(toSync, synced0, net, maxRetries, |toSync|)) == []
  {
    var toSync := Pending(links, synced0);
    NoFailureAllAdded(net, maxRetries, |toSync|);
    AllAddedIds(toSync, net, maxRetries, |toSync|);
    assert toSync[..|toSync|] == toSync;
    var after := Snapshot(toSync, synced0, net, maxRetries, |toSync|);
    forall k | 0 <= k < |links| ensures links[k].id in after {
      PendingMember(links, synced0, links[k]);
      if links[k].id !in synced0 {
        var j :| 0 <= j < |toSync| && toSync[j] == links[k];
        assert links[k].id == toSync[j].id;
      }
    }
    PendingEmpty(links, after);
  }

  /**
   A run only adds ids of source links that were not synced before: every id
   in a snapshot is already in the loaded set or belongs to a link of the
   source whose id was not in it.
   */
  lemma NewIdsArePending(links: seq<Link>, synced0: set<Id>, net: Network, maxRetries: int, n: nat, id: Id)
    requires n <= |Pending(links, synced0)|
    ensures id in Snapshot(Pending(links, synced0), synced0, net, maxRetries, n) ==>
              id in synced0 || (exists k :: 0 <= k < |links| && links[k].id == id)
  {
    var toSync := Pending(links, synced0);
    SnapshotMember(toSync, synced0, net, maxRetries, n, id);
    if id in Snapshot(toSync, synced0, net, maxRetries, n) && id !in synced0 {
      var j :| 0 <= j < n && Call(net, maxRetries, j).outcome == Added && toSync[j].id == id;
      PendingMember(links, synced0, toSync[j]);
      var k :| 0 <= k < |links| && links[k] == toSync[j];
    }
  }

  /**
   What the state file holds after a run that raised at pending link `item`:
   the last periodic save, or what it held before the run when the raise came
   on one of the first ten links.
   */
  lemma LoadAfterAbort(toSync: seq<Link>, synced0: set<Id>, history: seq<set<Id>>, net: Network, maxRetries: int, item: nat)
    requires item <= |toSync|
    ensures Load(history + PeriodicSaves(toSync, synced0, net, maxRetries, item))
            == if item < 10 then Load(history) else Snapshot(toSync, synced0, net, maxRetries, 10 * (item / 10))
  {
    var saves := PeriodicSaves(toSync, synced0, net, maxRetries, item);
    PeriodicSavesAt(toSync, synced0, net, maxRetries, item);
    if item < 10 {
      assert history + saves == history;
    } else {
      var h := history + saves;
      assert h[|h| - 1] == saves[|saves| - 1];
    }
  }

  /**
   A run that completed without failures, against what the state file held
   before it: the state file then holds the final snapshot, and a second run
   over the same links finds nothing pending.
   */
  lemma SecondRunFindsNothing(links: seq<Link>, history: seq<set<Id>>, net: Network, maxRetries: int)
    requires var toSync := Pending(links, Load(history));
             Reaches(net, maxRetries, |toSync|) && CountOf(net, maxRetries, |toSync|, NotAdded) == 0
    ensures var synced0 := Load(history);
            var toSync := Pending(links, synced0);
            var final := Snapshot(toSync, synced0, net, maxRetries, |toSync|);
            var after := history + PeriodicSaves(toSync, synced0, net, maxRetries, |toSync|) + [final];
            Load(after) == final && Pending(links, Load(after)) == []
  {
    CompletedRunLeavesNothingPending(links, Load(history), net, maxRetries);
  }

  /** What `cmd_status` prints: the three counts, up to ten pending titles and how many more there are. */
  datatype StatusReport = StatusReport(total: nat, synced: nat, pending: nat, shown: seq<String>, more: nat)

  /**
   The numbers `cmd_status` prints: all links, the size of the stored set
   (which may hold ids the source no longer has), the pending ones, the
   titles of the first ten pending links and the count beyond those ten.
   */
  function Summary(links: seq<Link>, synced: set<Id>): (r: StatusReport)
    ensures r.total == |links| && r.synced == |synced| && r.pending == |Pending(links, synced)|
    ensures |r.shown| == if r.pending <= 10 then r.pending else 10
    ensures |r.shown| + r.more == r.pending
    ensures r.more > 0 <==> r.pending > 10
    ensures forall k :: 0 <= k < |r.shown| ==> r.shown[k] == Pending(links, synced)[k].title
  {
    var unsynced := Pending(links, synced);
    var shown := if |unsynced| <= 10 then unsynced else unsynced[..10];
    StatusReport(|links|, |synced|, |unsynced|,
                 seq(|shown|, k requires 0 <= k < |shown| => shown[k].title),
                 if |unsynced| > 10 then |unsynced| - 10 else 0)
  }

  /** After `reset` removes the state file, status shows every link as pending. */
  lemma StatusAfterReset(links: seq<Link>)
    ensures var r := Summary(links, Load([]));
            r.synced == 0 && r.pending == r.total
  {
    PendingNoneSynced(links);
  }

  /** `cmd_status`: a failed enumeration raises; otherwise the summary of the links against the loaded set. */
  method CmdStatus(script: ScriptRun, history: seq<set<Id>>) returns (r: Result<StatusReport, SourceError>)
    ensures script.returnCode != 0 ==>
              r == Failure(if Contains(script.stderr, "No such process") || Contains(script.stderr, "not running")
                           then NotReachable else ScriptFailed(script.stderr))
    ensures script.returnCode == 0 ==> r == Success(Summary(RecordsOf(Lines(script.stdout)), Load(history)))
  {
    var got := GetLinks(script);
    if got.Failure? {
      return Failure(got.error);
    }
    return Success(Summary(got.value, Load(history)));
  }
}
