/**
 The publish loop of `cmd_sync`: every pending link in order goes to the
 publisher; successes join the in-memory synced set; after every tenth
 processed link, and once after the loop, the set is saved. A 403 raises out
 of the loop, and nothing saves the set on the way out.

 The publisher calls of a run are numbered from 0; call k is the one made
 for pending link k, and its requests are numbered after those of the calls
 before it.
 */
module Sync {
  import opened Links
  import opened Publisher

  /** How the loop ends: normally with its two counters, or by the 403 raised for pending link `item`. */
  datatype LoopEnd = Completed(newCount: nat, failedCount: nat) | AuthAborted(item: nat)

  /** The number of the first request of call `k`. */
  function CallBase(net: Network, maxRetries: int, k: nat): (n: nat)
  {
    if k == 0 then 0
    else CallBase(net, maxRetries, k - 1) + Publish(net, CallBase(net, maxRetries, k - 1), maxRetries).attempts
  }

  /** Call `k` of the run. */
  function Call(net: Network, maxRetries: int, k: nat): (t: Attempt)
  {
    Publish(net, CallBase(net, maxRetries, k), maxRetries)
  }

  /** No call before `k` raised, so the loop gets as far as call `k`. */
  predicate Reaches(net: Network, maxRetries: int, k: nat)
  {
    forall j :: 0 <= j < k ==> Call(net, maxRetries, j).outcome != AuthRejected
  }

  /** Ids of the first `n` links whose call returned `True`. */
  function PublishedIds(links: seq<Link>, net: Network, maxRetries: int, n: nat): (ids: set<Id>)
    requires n <= |links|
  {
    if n == 0 then {}
    else PublishedIds(links, net, maxRetries, n - 1)
         + (if Call(net, maxRetries, n - 1).outcome == Added then {links[n - 1].id} else {})
  }

  /** The in-memory synced set once the first `n` links are processed. */
  function Snapshot(links: seq<Link>, synced0: set<Id>, net: Network, maxRetries: int, n: nat): (s: set<Id>)
    requires n <= |links|
  {
    synced0 + PublishedIds(links, net, maxRetries, n)
  }

  /** How many of the first `n` calls ended in `o`. */
  function CountOf(net: Network, maxRetries: int, n: nat, o: Outcome): (c: nat)
    ensures c <= n
  {
    if n == 0 then 0
    else CountOf(net, maxRetries, n - 1, o) + (if Call(net, maxRetries, n - 1).outcome == o then 1 else 0)
  }

  /** The periodic saves made while processing the first `n` links. */
  function PeriodicSaves(links: seq<Link>, synced0: set<Id>, net: Network, maxRetries: int, n: nat): (saves: seq<set<Id>>)
    requires n <= |links|
  {
    if n == 0 then []
    else PeriodicSaves(links, synced0, net, maxRetries, n - 1)
         + (if n % 10 == 0 then [Snapshot(links, synced0, net, maxRetries, n)] else [])
  }

  /**
   The loop state after the first `i` links were processed without a raise:
   the request counter, the in-memory synced set, both counters and the saves
   made so far.
   */
  predicate Processed(toSync: seq<Link>, synced0: set<Id>, net: Network, maxRetries: int, i: nat,
                      calls: nat, synced: set<Id>, newCount: nat, failedCount: nat, saves: seq<set<Id>>)
  {
    && i <= |toSync|
    && Reaches(net, maxRetries, i)
    && calls == CallBase(net, maxRetries, i)
    && synced == Snapshot(toSync, synced0, net, maxRetries, i)
    && newCount == CountOf(net, maxRetries, i, Added)
    && failedCount == CountOf(net, maxRetries, i, NotAdded)
    && saves == PeriodicSaves(toSync, synced0, net, maxRetries, i)
  }

  /** Processing link `i` with a call that did not raise: the state the loop body moves to. */
  lemma ProcessNext(toSync: seq<Link>, synced0: set<Id>, net: Network, maxRetries: int, i: nat,
                    calls: nat, synced: set<Id>, newCount: nat, failedCount: nat, saves: seq<set<Id>>, t: Attempt)
    requires Processed(toSync, synced0, net, maxRetries, i, calls, synced, newCount, failedCount, saves)
    requires i < |toSync| && t == Publish(net, calls, maxRetries) && t.outcome != AuthRejected
    ensures var added := t.outcome == Added;
            var synced' := if added then synced + {toSync[i].id} else synced;
            Processed(toSync, synced0, net, maxRetries, i + 1,
                      calls + t.attempts, synced',
                      if added then newCount + 1 else newCount,
                      if added then failedCount else failedCount + 1,
                      if (i + 1) % 10 == 0 then saves + [synced'] else saves)
  {
    assert Call(net, maxRetries, i) == t;
    LoopStep(toSync, synced0, net, maxRetries, i);
  }

  /** What processing link `i` adds to the synced set and to the saves. */
  lemma LoopStep(links: seq<Link>, synced0: set<Id>, net: Network, maxRetries: int, i: nat)
    requires i < |links|
    ensures var next := Snapshot(links, synced0, net, maxRetries, i + 1);
            && next == Snapshot(links, synced0, net, maxRetries, i)
                       + (if Call(net, maxRetries, i).outcome == Added then {links[i].id} else {})
            && PeriodicSaves(links, synced0, net, maxRetries, i + 1)
               == PeriodicSaves(links, synced0, net, maxRetries, i) + (if (i + 1) % 10 == 0 then [next] else [])
  {
  }

  /**
   Lines 307-324, the publisher's requests numbered from 0: `synced` is the
   in-memory set (lost when the loop raises), `saves` the snapshots written,
   in order, and `calls` the number of requests made. The loop raises exactly
   at the first call that gets a 403 (calls after it are never made), and
   otherwise processes every link.
   */
  method SyncLoop(toSync: seq<Link>, synced0: set<Id>, net: Network, maxRetries: int)
    returns (end: LoopEnd, synced: set<Id>, saves: seq<set<Id>>, calls: nat)
    ensures end.Completed? ==>
              && Reaches(net, maxRetries, |toSync|)
              && end.newCount == CountOf(net, maxRetries, |toSync|, Added)
              && end.failedCount == CountOf(net, maxRetries, |toSync|, NotAdded)
              && synced == Snapshot(toSync, synced0, net, maxRetries, |toSync|)
              && saves == PeriodicSaves(toSync, synced0, net, maxRetries, |toSync|) + [synced]
              && calls == CallBase(net, maxRetries, |toSync|)
    ensures end.AuthAborted? ==>
              && end.item < |toSync|
              && Reaches(net, maxRetries, end.item)
              && Call(net, maxRetries, end.item).outcome == AuthRejected
              && synced == Snapshot(toSync, synced0, net, maxRetries, end.item)
              && saves == PeriodicSaves(toSync, synced0, net, maxRetries, end.item)
              && calls == CallBase(net, maxRetries, end.item + 1)
  {
    synced, saves, calls := synced0, [], 0;
    var newCount, failedCount := 0, 0;
    var i := 0;
    while i < |toSync|
      invariant Processed(toSync, synced0, net, maxRetries, i, calls, synced, newCount, failedCount, saves)
      decreases |toSync| - i
    {
      var link := toSync[i];
      var position := i + 1;
      var outcome, attempts, waits := AddToInstapaper(net, calls, maxRetries);
      if outcome == AuthRejected {
        return AuthAborted(i), synced, saves, calls + attempts;
      }
      ProcessNext(toSync, synced0, net, maxRetries, i, calls, synced, newCount, failedCount, saves,
                  Attempt(outcome, attempts, waits));
      if outcome == Added {
        synced := synced + {link.id};
        newCount := newCount + 1;
      } else {
        failedCount := failedCount + 1;
      }
      calls := calls + attempts;
      if position % 10 == 0 {
        saves := saves + [synced];
      }
      i := i + 1;
    }
    saves := saves + [synced];
    end := Completed(newCount, failedCount);
  }

  /** Without an abort every pending link either succeeded or failed. */
  lemma {:induction false} CompletedAccounting(net: Network, maxRetries: int, n: nat)
    requires Reaches(net, maxRetries, n)
    ensures CountOf(net, maxRetries, n, Added) + CountOf(net, maxRetries, n, NotAdded) == n
  {
    if n > 0 {
      CompletedAccounting(net, maxRetries, n - 1);
    }
  }

  /**
   The synced set only grows, and only by links that were published: an id
   is in it exactly when it was already synced or some processed link with
   that id returned `True`. So an id whose every link failed is never added.
   */
  lemma {:induction false} SnapshotMember(links: seq<Link>, synced0: set<Id>, net: Network, maxRetries: int, n: nat, id: Id)
    requires n <= |links|
    ensures id in Snapshot(links, synced0, net, maxRetries, n) <==>
            id in synced0 || exists k :: 0 <= k < n && Call(net, maxRetries, k).outcome == Added && links[k].id == id
  {
    if n > 0 {
      SnapshotMember(links, synced0, net, maxRetries, n - 1, id);
    }
  }

  /** Later snapshots contain earlier ones. */
  lemma {:induction false} SnapshotMonotone(links: seq<Link>, synced0: set<Id>, net: Network, maxRetries: int, a: nat, b: nat)
    requires a <= b <= |links|
    ensures synced0 <= Snapshot(links, synced0, net, maxRetries, a) <= Snapshot(links, synced0, net, maxRetries, b)
    decreases b - a
  {
    if a < b {
      SnapshotMonotone(links, synced0, net, maxRetries, a, b - 1);
    }
  }

  /**
   The flush schedule: after `n` processed links there have been `n / 10`
   periodic saves, the j-th of them taken right after link `10 * (j + 1)`.
   */
  lemma {:induction false} PeriodicSavesAt(links: seq<Link>, synced0: set<Id>, net: Network, maxRetries: int, n: nat)
    requires n <= |links|
    ensures var saves := PeriodicSaves(links, synced0, net, maxRetries, n);
            && |saves| == n / 10
            && forall j :: 0 <= j < |saves| ==>
                 10 * (j + 1) <= n && saves[j] == Snapshot(links, synced0, net, maxRetries, 10 * (j + 1))
  {
    if n > 0 {
      PeriodicSavesAt(links, synced0, net, maxRetries, n - 1);
      if n % 10 == 0 {
        assert n / 10 == (n - 1) / 10 + 1;
        assert n == 10 * ((n - 1) / 10 + 1);
      } else {
        assert n / 10 == (n - 1) / 10;
      }
    }
  }

  /** Every saved snapshot contains the initial set and the snapshot before it. */
  lemma SavesGrow(links: seq<Link>, synced0: set<Id>, net: Network, maxRetries: int, n: nat, final: bool)
    requires n <= |links|
    ensures var saves := PeriodicSaves(links, synced0, net, maxRetries, n)
                         + (if final then [Snapshot(links, synced0, net, maxRetries, n)] else []);
            && (forall j :: 0 <= j < |saves| ==> synced0 <= saves[j])
            && (forall j :: 0 <= j < |saves| - 1 ==> saves[j] <= saves[j + 1])
  {
    PeriodicSavesAt(links, synced0, net, maxRetries, n);
    var periodic := PeriodicSaves(links, synced0, net, maxRetries, n);
    var saves := periodic + (if final then [Snapshot(links, synced0, net, maxRetries, n)] else []);
    forall j | 0 <= j < |saves| ensures synced0 <= saves[j] {
      if j < |periodic| {
        SnapshotMonotone(links, synced0, net, maxRetries, 0, 10 * (j + 1));
      } else {
        SnapshotMonotone(links, synced0, net, maxRetries, 0, n);
      }
    }
    forall j | 0 <= j < |saves| - 1 ensures saves[j] <= saves[j + 1] {
      if j + 1 < |periodic| {
        SnapshotMonotone(links, synced0, net, maxRetries, 10 * (j + 1), 10 * (j + 2));
      } else {
        SnapshotMonotone(links, synced0, net, maxRetries, 10 * (j + 1), n);
      }
    }
  }

  /** A raise on any of the first ten links leaves nothing saved at all. */
  lemma AbortBeforeFirstFlush(links: seq<Link>, synced0: set<Id>, net: Network, maxRetries: int, item: nat)
    requires item < |links| && item < 10
    ensures PeriodicSaves(links, synced0, net, maxRetries, item) == []
  {
    PeriodicSavesAt(links, synced0, net, maxRetries, item);
  }

  function MaxAttempts(maxRetries: int): (n: nat)
  {
    if maxRetries < 0 then 0 else maxRetries + 1
  }

  /** Each call makes at most `maxRetries + 1` requests (none if it is negative), so `k` calls at most `k` times that. */
  lemma {:induction false} CallBaseBound(net: Network, maxRetries: int, k: nat)
    ensures CallBase(net, maxRetries, k) <= k * MaxAttempts(maxRetries)
  {
    if k > 0 {
      CallBaseBound(net, maxRetries, k - 1);
      PublishCharacterized(net, CallBase(net, maxRetries, k - 1), maxRetries);
      assert (k - 1) * MaxAttempts(maxRetries) + MaxAttempts(maxRetries) == k * MaxAttempts(maxRetries);
    }
  }

  /** With a server that accepts everything, call k is request k alone, and it adds its link. */
  lemma {:induction false} AllAccepted(net: Network, maxRetries: int, k: nat)
    requires maxRetries >= 0
    requires forall m: nat :: net(m) == Status(201)
    ensures CallBase(net, maxRetries, k) == k
    ensures Call(net, maxRetries, k) == Attempt(Added, 1, [])
  {
    if k > 0 {
      AllAccepted(net, maxRetries, k - 1);
    }
  }

  /** Ids of the links in `links`. */
  function IdsOf(links: seq<Link>): (ids: set<Id>)
  {
    set k | 0 <= k < |links| :: links[k].id
  }

  lemma {:induction false} AllAddedIds(links: seq<Link>, net: Network, maxRetries: int, n: nat)
    requires n <= |links|
    requires forall k :: 0 <= k < n ==> Call(net, maxRetries, k).outcome == Added
    ensures PublishedIds(links, net, maxRetries, n) == IdsOf(links[..n])
  {
    if n > 0 {
      AllAddedIds(links, net, maxRetries, n - 1);
      assert IdsOf(links[..n]) == IdsOf(links[..n - 1]) + {links[n - 1].id} by {
        assert forall k :: 0 <= k < n - 1 ==> links[..n][k] == links[..n - 1][k];
        assert links[..n][n - 1] == links[n - 1];
      }
    }
  }

  /**
   Twenty-five links, all accepted: the loop completes and its saves hold the
   initial ids plus the first 10, the first 20 and all 25 ids, in that order.
   */
  lemma TwentyFiveAccepted(toSync: seq<Link>, synced0: set<Id>, net: Network, maxRetries: int)
    requires |toSync| == 25 && maxRetries >= 0
    requires forall m: nat :: net(m) == Status(201)
    ensures Reaches(net, maxRetries, 25)
    ensures PeriodicSaves(toSync, synced0, net, maxRetries, 25) + [Snapshot(toSync, synced0, net, maxRetries, 25)]
            == [synced0 + IdsOf(toSync[..10]), synced0 + IdsOf(toSync[..20]), synced0 + IdsOf(toSync)]
  {
    forall k | 0 <= k < 25 ensures Call(net, maxRetries, k).outcome == Added {
      AllAccepted(net, maxRetries, k);
    }
    PeriodicSavesAt(toSync, synced0, net, maxRetries, 25);
    AllAddedIds(toSync, net, maxRetries, 10);
    AllAddedIds(toSync, net, maxRetries, 20);
    AllAddedIds(toSync, net, maxRetries, 25);
    assert toSync[..25] == toSync;
    var periodic := PeriodicSaves(toSync, synced0, net, maxRetries, 25);
    assert periodic == [periodic[0], periodic[1]];
  }
}
