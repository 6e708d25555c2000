/**
 The remote publisher, `add_to_instapaper`: one form POST per attempt, the
 response classified, transient failures retried with exponential back-off.
 The network is an oracle: `net(n)` is what the n-th request of the run gets
 back (a status code, or one of the exceptions `requests` raises).
 */
module Publisher {

  /** What one `requests.post` call ends in. */
  datatype Event = Status(code: int) | Timeout | ConnError | OtherNetError

  /** The answer to the n-th request of the run. */
  type Network = nat -> Event

  /** How the code treats one attempt's event. */
  datatype Class = Created | AuthFailure | Permanent | Transient

  /** The function's three ways out: `return True`, `return False`, `raise RuntimeError`. */
  datatype Outcome = Added | NotAdded | AuthRejected

  /** One call: its outcome, the requests it made and the seconds it slept between them. */
  datatype Attempt = Attempt(outcome: Outcome, attempts: nat, waits: seq<nat>)

  /**
   The status chain and the `except` clauses: 201 succeeds, 403 raises, 400,
   other statuses below 500 and other request errors give up, and 5xx,
   timeouts and connection errors are retried.
   */
  function Classify(e: Event): (c: Class)
    ensures c == Created <==> e == Status(201)
    ensures c == AuthFailure <==> e == Status(403)
    ensures c == Transient <==> e == Timeout || e == ConnError || (e.Status? && e.code >= 500)
  {
    match e
    case Status(code) =>
      if code == 201 then Created
      else if code == 403 then AuthFailure
      else if code == 400 then Permanent
      else if code >= 500 then Transient
      else Permanent
    case Timeout => Transient
    case ConnError => Transient
    case OtherNetError => Permanent
  }

  /** `2**k` */
  function Pow2(k: nat): (r: nat)
    ensures r >= 1
  {
    if k == 0 then 1 else 2 * Pow2(k - 1)
  }

  /** The outcome of a decisive (non-transient) attempt. */
  function Decide(c: Class): (o: Outcome)
  {
    match c
    case Created => Added
    case AuthFailure => AuthRejected
    case Permanent => NotAdded
    case Transient => NotAdded
  }

  /**
   The retry loop from iteration `attempt` of `range(maxRetries + 1)` on; the
   requests are numbered from `base`.
   */
  function PublishFrom(net: Network, base: nat, attempt: nat, maxRetries: int): (t: Attempt)
    decreases if attempt <= maxRetries then maxRetries + 1 - attempt else 0
  {
    if attempt > maxRetries then Attempt(NotAdded, attempt, [])
    else
      var c := Classify(net(base + attempt));
      if c == Transient && attempt < maxRetries then
        var rest := PublishFrom(net, base, attempt + 1, maxRetries);
        Attempt(rest.outcome, rest.attempts, [Pow2(attempt)] + rest.waits)
      else Attempt(Decide(c), attempt + 1, [])
  }

  /** One whole call of `add_to_instapaper`, its first request numbered `base`. */
  function Publish(net: Network, base: nat, maxRetries: int): (t: Attempt)
  {
    PublishFrom(net, base, 0, maxRetries)
  }

  lemma {:induction false} PublishFromShape(net: Network, base: nat, attempt: nat, maxRetries: int)
    requires attempt <= maxRetries
    ensures var t := PublishFrom(net, base, attempt, maxRetries);
            && attempt < t.attempts <= maxRetries + 1
            && |t.waits| == t.attempts - 1 - attempt
            && (forall j :: 0 <= j < |t.waits| ==> t.waits[j] == Pow2(attempt + j))
            && (forall n: nat :: base + attempt <= n < base + t.attempts - 1 ==> Classify(net(n)) == Transient)
            && t.outcome == Decide(Classify(net(base + t.attempts - 1)))
            && (Classify(net(base + t.attempts - 1)) == Transient ==> t.attempts == maxRetries + 1)
    decreases maxRetries - attempt
  {
    var c := Classify(net(base + attempt));
    if c == Transient && attempt < maxRetries {
      PublishFromShape(net, base, attempt + 1, maxRetries);
      var rest := PublishFrom(net, base, attempt + 1, maxRetries);
      var t := PublishFrom(net, base, attempt, maxRetries);
      assert t.waits == [Pow2(attempt)] + rest.waits;
      forall j | 0 <= j < |t.waits| ensures t.waits[j] == Pow2(attempt + j) {
        if j > 0 {
          assert t.waits[j] == rest.waits[j - 1];
        }
      }
    }
  }

  /**
   The whole behaviour of a call. With `maxRetries < 0` the loop is empty: no
   request, result `False`. Otherwise at most `maxRetries + 1` requests are
   made; every request but the last met a transient failure (status >= 500,
   timeout, connection error); the wait before retry k (k >= 1) is `2**(k-1)`
   seconds, so 1, 2, 4, ...; and the last event decides: 201 adds, 403
   raises, anything else (400, another status below 500, another network error,
   or a transient failure once the retries are exhausted) returns `False`.
   */
  lemma PublishCharacterized(net: Network, base: nat, maxRetries: int)
    ensures var t := Publish(net, base, maxRetries);
            && (maxRetries < 0 ==> t == Attempt(NotAdded, 0, []))
            && (maxRetries >= 0 ==>
                  && 1 <= t.attempts <= maxRetries + 1
                  && |t.waits| == t.attempts - 1
                  && (forall j :: 0 <= j < |t.waits| ==> t.waits[j] == Pow2(j))
                  && (forall n: nat :: base <= n < base + t.attempts - 1 ==> Classify(net(n)) == Transient)
                  && t.outcome == Decide(Classify(net(base + t.attempts - 1)))
                  && (Classify(net(base + t.attempts - 1)) == Transient ==> t.attempts == maxRetries + 1))
  {
    if maxRetries >= 0 {
      PublishFromShape(net, base, 0, maxRetries);
    }
  }

  /**
   `True` comes back exactly when some attempt within the retry budget saw
   status 201 after nothing but transient failures; 200 or any other 2xx does
   not count.
   */
  lemma PublishAddedIff(net: Network, base: nat, maxRetries: int)
    ensures Publish(net, base, maxRetries).outcome == Added <==>
            exists n: nat :: base <= n <= base + maxRetries && net(n) == Status(201) &&
                             forall m: nat :: base <= m < n ==> Classify(net(m)) == Transient
  {
    PublishCharacterized(net, base, maxRetries);
    var t := Publish(net, base, maxRetries);
    if t.outcome == Added {
      var n: nat := base + t.attempts - 1;
      assert Classify(net(n)) == Created;
      assert net(n) == Status(201);
    }
    if n: nat :| base <= n <= base + maxRetries && net(n) == Status(201) &&
                 forall m: nat :: base <= m < n ==> Classify(net(m)) == Transient {
      // The first non-transient attempt is the last one made; it is request n.
      var last: nat := base + t.attempts - 1;
      assert last == n;
    }
  }

  /** A 403 raises at once: it ends the call on that attempt, with no further requests. */
  lemma PublishAuthStops(net: Network, base: nat, maxRetries: int, k: nat)
    requires k <= maxRetries
    requires net(base + k) == Status(403)
    ensures var t := Publish(net, base, maxRetries);
            && t.attempts <= k + 1
            && (t.attempts == k + 1 ==> t.outcome == AuthRejected)
            && (t.outcome == AuthRejected ==> t.attempts >= 1 && net(base + t.attempts - 1) == Status(403))
  {
    PublishCharacterized(net, base, maxRetries);
    var t := Publish(net, base, maxRetries);
    var n: nat := base + k;
    assert Classify(net(n)) == AuthFailure;
  }

  /** A server that always fails transiently gets `maxRetries + 1` requests, waits 1, 2, 4, ..., and `False`. */
  lemma PublishAlwaysTransient(net: Network, base: nat, maxRetries: int)
    requires maxRetries >= 0
    requires forall n: nat :: Classify(net(n)) == Transient
    ensures var t := Publish(net, base, maxRetries);
            && t.outcome == NotAdded && t.attempts == maxRetries + 1
            && |t.waits| == maxRetries && forall j :: 0 <= j < maxRetries ==> t.waits[j] == Pow2(j)
  {
    PublishCharacterized(net, base, maxRetries);
  }

  /** Always 503 with the default of three retries: 4 requests, waits [1, 2, 4], `False`. */
  lemma PublishAlways503()
    ensures Publish(n => Status(503), 0, 3) == Attempt(NotAdded, 4, [1, 2, 4])
  {
    var net: Network := n => Status(503);
    PublishAlwaysTransient(net, 0, 3);
    assert Pow2(1) == 2 && Pow2(2) == 4;
  }

  /** `t` preceded by the waits `w` slept before it. */
  function AfterWaits(w: seq<nat>, t: Attempt): (r: Attempt)
  {
    Attempt(t.outcome, t.attempts, w + t.waits)
  }

  /** A transient failure with retries left: sleep `2**attempt`, then go on with the next attempt. */
  lemma PublishFromRetry(net: Network, base: nat, attempt: nat, maxRetries: int, w: seq<nat>)
    requires attempt < maxRetries && Classify(net(base + attempt)) == Transient
    ensures AfterWaits(w, PublishFrom(net, base, attempt, maxRetries))
            == AfterWaits(w + [Pow2(attempt)], PublishFrom(net, base, attempt + 1, maxRetries))
  {
    var rest := PublishFrom(net, base, attempt + 1, maxRetries);
    assert w + ([Pow2(attempt)] + rest.waits) == (w + [Pow2(attempt)]) + rest.waits;
  }

  /** Any other event, or a transient failure on the last attempt, ends the call there. */
  lemma PublishFromStop(net: Network, base: nat, attempt: nat, maxRetries: int, w: seq<nat>)
    requires attempt <= maxRetries
    requires Classify(net(base + attempt)) != Transient || attempt == maxRetries
    ensures AfterWaits(w, PublishFrom(net, base, attempt, maxRetries))
            == Attempt(Decide(Classify(net(base + attempt))), attempt + 1, w)
  {
    assert w + [] == w;
  }

  /**
   `add_to_instapaper(url, title, username, password, max_retries)`: the
   request number of its first attempt is `base`; `waits` lists the
   `time.sleep` arguments in order.
   */
  method AddToInstapaper(net: Network, base: nat, maxRetries: int)
    returns (outcome: Outcome, attempts: nat, waits: seq<nat>)
    ensures Attempt(outcome, attempts, waits) == Publish(net, base, maxRetries)
  {
    waits := [];
    var attempt: nat := 0;
    assert AfterWaits([], PublishFrom(net, base, 0, maxRetries)) == Publish(net, base, maxRetries);
    while attempt < maxRetries + 1
      invariant attempt <= maxRetries + 1 || (attempt == 0 && maxRetries < 0)
      invariant |waits| == attempt
      invariant attempt <= maxRetries + 1 ==>
                  Publish(net, base, maxRetries) == AfterWaits(waits, PublishFrom(net, base, attempt, maxRetries))
      decreases maxRetries + 1 - attempt
    {
      var event := net(base + attempt);
      if Classify(event) != Transient || attempt == maxRetries {
        PublishFromStop(net, base, attempt, maxRetries, waits);
      } else {
        PublishFromRetry(net, base, attempt, maxRetries, waits);
      }
      match event {
        case Status(code) =>
          if code == 201 {
            return Added, attempt + 1, waits;
          } else if code == 403 {
            return AuthRejected, attempt + 1, waits;
          } else if code == 400 {
            return NotAdded, attempt + 1, waits;
          } else if code >= 500 {
            if attempt < maxRetries {
              waits := waits + [Pow2(attempt)];
              attempt := attempt + 1;
              continue;
            } else {
              return NotAdded, attempt + 1, waits;
            }
          } else {
            return NotAdded, attempt + 1, waits;
          }
        case Timeout =>
          if attempt < maxRetries {
            waits := waits + [Pow2(attempt)];
            attempt := attempt + 1;
            continue;
          } else {
            return NotAdded, attempt + 1, waits;
          }
        case ConnError =>
          if attempt < maxRetries {
            waits := waits + [Pow2(attempt)];
            attempt := attempt + 1;
            continue;
          } else {
            return NotAdded, attempt + 1, waits;
          }
        case OtherNetError =>
          return NotAdded, attempt + 1, waits;
      }
    }
    assert waits + [] == waits;
    return NotAdded, attempt, waits;
  }
}
