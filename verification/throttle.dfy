/**
 The request throttle `caching_decorator` puts in front of the `/get` and
 `/start` commands: a time-to-live cache keyed by user. A request runs only
 when the user has no live entry; running it stores an entry that lives
 for five seconds. Both commands share the cache, so either one blocks
 both for that user.

 Time is the cache timer's reading in milliseconds; an entry stored at `t`
 is live while the timer reads less than `t + Ttl`.
 */
module Throttle {

  /** The entry lifetime, five seconds. */
  const Ttl: int := 5000

  /** The instant each user's entry stops being live; users without an entry are absent. */
  datatype Cache = Cache(expiry: map<int, int>)

  const EmptyCache: Cache := Cache(map[])

  /** `messages_cache.get(user_id)` returns the stored `True`. */
  predicate Live(c: Cache, user: int, now: int) {
    user in c.expiry && now < c.expiry[user]
  }

  /** One decorated call: the handler runs (`true`) and the entry is stored, or the call is dropped. */
  function Admit(c: Cache, user: int, now: int): (r: (Cache, bool))
    ensures r.1 <==> !Live(c, user, now)
    ensures r.1 ==> r.0.expiry == c.expiry[user := now + Ttl]
    ensures !r.1 ==> r.0 == c
  {
    if Live(c, user, now) then (c, false) else (Cache(c.expiry[user := now + Ttl]), true)
  }

  datatype Request = Request(user: int, time: int)

  /** The timer never runs backwards along the requests. */
  predicate Monotonic(reqs: seq<Request>) {
    forall i, j :: 0 <= i < j < |reqs| ==> reqs[i].time <= reqs[j].time
  }

  /** The requests in arrival order through a cache that starts empty: the final cache and which requests ran. */
  function Run(reqs: seq<Request>): (r: (Cache, seq<bool>))
    ensures |r.1| == |reqs|
    decreases |reqs|
  {
    if |reqs| == 0 then (EmptyCache, [])
    else
      var (c, ran) := Run(reqs[..|reqs| - 1]);
      var last := reqs[|reqs| - 1];
      var (c', admitted) := Admit(c, last.user, last.time);
      (c', ran + [admitted])
  }

  /**
   The rule the throttle implements, without a cache: a request runs exactly
   when every earlier request of the same user that ran was at least `Ttl`
   earlier.
   */
  function Spaced(reqs: seq<Request>): (ran: seq<bool>)
    ensures |ran| == |reqs|
    decreases |reqs|
  {
    if |reqs| == 0 then []
    else
      var prev := Spaced(reqs[..|reqs| - 1]);
      var last := reqs[|reqs| - 1];
      prev + [forall j :: 0 <= j < |prev| && prev[j] && reqs[j].user == last.user ==> last.time >= reqs[j].time + Ttl]
  }

  /** What the cache remembers after a run: each user's entry comes from the latest request of theirs that ran. */
  predicate CacheReflects(reqs: seq<Request>, c: Cache, ran: seq<bool>)
    requires |ran| == |reqs|
  {
    && (forall u :: u in c.expiry ==> exists j :: 0 <= j < |reqs| && ran[j] && reqs[j].user == u && c.expiry[u] == reqs[j].time + Ttl)
    && (forall j :: 0 <= j < |reqs| && ran[j] ==> reqs[j].user in c.expiry && c.expiry[reqs[j].user] >= reqs[j].time + Ttl)
  }

  lemma MonotonicPrefix(reqs: seq<Request>)
    requires |reqs| > 0 && Monotonic(reqs)
    ensures Monotonic(reqs[..|reqs| - 1])
    ensures forall j :: 0 <= j < |reqs| - 1 ==> reqs[..|reqs| - 1][j] == reqs[j] && reqs[j].time <= reqs[|reqs| - 1].time
  {
  }

  /** The run on all requests is the run on all but the last, then one more call. */
  lemma RunStep(reqs: seq<Request>)
    requires |reqs| > 0
    ensures var prefix := Run(reqs[..|reqs| - 1]);
      var last := reqs[|reqs| - 1];
      Run(reqs) == (Admit(prefix.0, last.user, last.time).0, prefix.1 + [Admit(prefix.0, last.user, last.time).1])
  {
  }

  lemma {:induction false} RunReflects(reqs: seq<Request>)
    requires Monotonic(reqs)
    ensures CacheReflects(reqs, Run(reqs).0, Run(reqs).1)
    decreases |reqs|
  {
    if |reqs| > 0 {
      MonotonicPrefix(reqs);
      RunReflects(reqs[..|reqs| - 1]);
      RunStep(reqs);
      ReflectsStep(reqs, Run(reqs[..|reqs| - 1]).0, Run(reqs[..|reqs| - 1]).1);
    }
  }

  /** One more call keeps the cache in step with the requests that ran. */
  lemma ReflectsStep(reqs: seq<Request>, c: Cache, ran: seq<bool>)
    requires |reqs| > 0 && |ran| == |reqs| - 1 && CacheReflects(reqs[..|reqs| - 1], c, ran)
    requires forall j :: 0 <= j < |reqs| - 1 ==> reqs[j].time <= reqs[|reqs| - 1].time
    ensures var last := reqs[|reqs| - 1];
      var next := Admit(c, last.user, last.time);
      CacheReflects(reqs, next.0, ran + [next.1])
  {
    var n := |reqs| - 1;
    var last := reqs[n];
    var next := Admit(c, last.user, last.time);
    var c', ran' := next.0, ran + [next.1];
    forall u | u in c'.expiry
      ensures exists j :: 0 <= j < |reqs| && ran'[j] && reqs[j].user == u && c'.expiry[u] == reqs[j].time + Ttl
    {
      if next.1 && u == last.user {
        assert ran'[n];
      } else {
        var j :| 0 <= j < n && ran[j] && reqs[..n][j].user == u && c.expiry[u] == reqs[..n][j].time + Ttl;
        assert ran'[j] && reqs[j] == reqs[..n][j];
      }
    }
    forall j | 0 <= j < |reqs| && ran'[j]
      ensures reqs[j].user in c'.expiry && c'.expiry[reqs[j].user] >= reqs[j].time + Ttl
    {
      if j < n {
        assert ran[j] && reqs[j] == reqs[..n][j];
      }
    }
  }

  /**
   With a timer that never runs backwards, the cache runs exactly the
   requests the spacing rule allows.
   */
  lemma {:induction false} RunIsSpaced(reqs: seq<Request>)
    requires Monotonic(reqs)
    ensures Run(reqs).1 == Spaced(reqs)
    decreases |reqs|
  {
    if |reqs| > 0 {
      var prefix := reqs[..|reqs| - 1];
      var c, ran := Run(prefix).0, Run(prefix).1;
      var last := reqs[|reqs| - 1];
      MonotonicPrefix(reqs);
      RunIsSpaced(prefix);
      RunReflects(prefix);
      RunStep(reqs);
      LiveIffRecent(prefix, c, ran, last.user, last.time);
      SpacedStep(reqs);
    }
  }

  /** The spacing rule on all requests is the rule on all but the last, then the verdict on the last. */
  lemma SpacedStep(reqs: seq<Request>)
    requires |reqs| > 0
    ensures var prefix := reqs[..|reqs| - 1];
      var last := reqs[|reqs| - 1];
      Spaced(reqs) == Spaced(prefix) +
        [forall j :: 0 <= j < |prefix| && Spaced(prefix)[j] && prefix[j].user == last.user ==> last.time >= prefix[j].time + Ttl]
  {
    var prefix := reqs[..|reqs| - 1];
    assert forall j :: 0 <= j < |prefix| ==> prefix[j] == reqs[j];
  }

  /**
   With a timer that never runs backwards, a user's entry is live exactly
   when one of their requests ran less than `Ttl` ago.
   */
  lemma LiveIffRecent(reqs: seq<Request>, c: Cache, ran: seq<bool>, user: int, now: int)
    requires |ran| == |reqs| && CacheReflects(reqs, c, ran)
    requires forall j :: 0 <= j < |reqs| ==> reqs[j].time <= now
    ensures Live(c, user, now) <==> exists j :: 0 <= j < |reqs| && ran[j] && reqs[j].user == user && now < reqs[j].time + Ttl
  {
  }

  /** Two requests of one user that both run are at least `Ttl` apart. */
  lemma {:induction false} SpacedRunsApart(reqs: seq<Request>, i: nat, j: nat)
    requires j < i < |reqs| && Spaced(reqs)[i] && Spaced(reqs)[j] && reqs[i].user == reqs[j].user
    ensures reqs[i].time >= reqs[j].time + Ttl
    decreases |reqs|
  {
    var prefix := reqs[..|reqs| - 1];
    assert Spaced(reqs)[..|prefix|] == Spaced(prefix);
    if i < |reqs| - 1 {
      assert Spaced(prefix)[i] && Spaced(prefix)[j];
      SpacedRunsApart(prefix, i, j);
    } else {
      assert Spaced(prefix)[j];
    }
  }

  /** A user's first request always runs, and a request at least `Ttl` after every earlier one of its user runs too. */
  lemma SpacedAdmitsQuietUser(reqs: seq<Request>)
    requires |reqs| > 0
    requires forall j :: 0 <= j < |reqs| - 1 && reqs[j].user == reqs[|reqs| - 1].user ==> reqs[|reqs| - 1].time >= reqs[j].time + Ttl
    ensures Spaced(reqs)[|reqs| - 1]
  {
    var prefix := reqs[..|reqs| - 1];
    forall j | 0 <= j < |prefix|
      ensures prefix[j] == reqs[j]
    {
    }
  }

  /** Requests of other users never keep a request from running. */
  lemma AdmitIgnoresOthers(c: Cache, user: int, now: int, other: int)
    requires other != user
    ensures Live(Admit(c, other, now).0, user, now) <==> Live(c, user, now)
  {
  }
}
