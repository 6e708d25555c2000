/**
 The pending computation of `cmd_sync` and `cmd_status`: the links whose id is
 not yet in the synced set, in source order, duplicates included.
 */
module PendingLinks {
  import opened Links

  /** The links whose id is not in `synced`, in source order. */
  function Pending(links: seq<Link>, synced: set<Id>): (r: seq<Link>)
    ensures |r| <= |links|
  {
    if links == [] then []
    else (if links[0].id in synced then [] else [links[0]]) + Pending(links[1..], synced)
  }

  /** A link is pending exactly when it is a source link whose id is not synced. */
  lemma {:induction false} PendingMember(links: seq<Link>, synced: set<Id>, l: Link)
    ensures l in Pending(links, synced) <==> l in links && l.id !in synced
  {
    if links != [] {
      PendingMember(links[1..], synced, l);
      assert links == [links[0]] + links[1..];
    }
  }

  /** Source order is kept: filtering a concatenation filters each part in turn. */
  lemma {:induction false} PendingAppend(a: seq<Link>, b: seq<Link>, synced: set<Id>)
    ensures Pending(a + b, synced) == Pending(a, synced) + Pending(b, synced)
  {
    if a == [] {
      assert a + b == b;
    } else {
      assert (a + b)[1..] == a[1..] + b;
      PendingAppend(a[1..], b, synced);
    }
  }

  /** No deduplication: an unsynced link occurs in pending as often as in the source. */
  lemma {:induction false} PendingKeepsDuplicates(links: seq<Link>, synced: set<Id>, l: Link)
    requires l.id !in synced
    ensures multiset(Pending(links, synced))[l] == multiset(links)[l]
  {
    if links != [] {
      PendingKeepsDuplicates(links[1..], synced, l);
      assert links == [links[0]] + links[1..];
    }
  }

  /** Nothing is pending exactly when every source id is already synced. */
  lemma {:induction false} PendingEmpty(links: seq<Link>, synced: set<Id>)
    ensures Pending(links, synced) == [] <==> forall k :: 0 <= k < |links| ==> links[k].id in synced
  {
    if links != [] {
      PendingEmpty(links[1..], synced);
      assert forall k :: 1 <= k < |links| ==> links[k] == links[1..][k - 1];
    }
  }

  /** With an empty synced set every link is pending. */
  lemma {:induction false} PendingNoneSynced(links: seq<Link>)
    ensures Pending(links, {}) == links
  {
    if links != [] {
      PendingNoneSynced(links[1..]);
      assert [links[0]] + links[1..] == links;
    }
  }

  /** Growing the synced set can only shrink pending. */
  lemma {:induction false} PendingAntitone(links: seq<Link>, s: set<Id>, t: set<Id>)
    requires s <= t
    ensures |Pending(links, t)| <= |Pending(links, s)|
  {
    if links != [] {
      PendingAntitone(links[1..], s, t);
    }
  }
}
