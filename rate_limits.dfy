/** The multi-window request rate limiter (core/util/rate_limits.py): per
    user, a list of request timestamps; a user is limited when some window
    (n_messages per `seconds`) holds strictly more than n_messages recent
    timestamps. The clock is the parameter `now`, read once per call. The
    same limiter is used by the root chat handler and the image command. */
module RateLimits {
  import opened Base

  datatype RateLimit = RateLimit(nMessages: int, seconds: int)

  /** The timestamps newer than `now - seconds`, in order. */
  function Recent(logs: seq<int>, now: int, seconds: int): (r: seq<int>)
    ensures |r| <= |logs|
    ensures forall t :: t in r <==> t in logs && t > now - seconds
  {
    if logs == [] then []
    else if logs[0] > now - seconds then [logs[0]] + Recent(logs[1..], now, seconds)
    else Recent(logs[1..], now, seconds)
  }

  /** `_is_limited`: strictly more than n_messages timestamps in the window. */
  predicate Exceeds(logs: seq<int>, now: int, limit: RateLimit)
  {
    |Recent(logs, now, limit.seconds)| > limit.nMessages
  }

  /** `_cleanup`: the log filtered by every window in turn. */
  function Pruned(logs: seq<int>, now: int, limits: seq<RateLimit>): seq<int>
  {
    if limits == [] then logs
    else Recent(Pruned(logs, now, limits[..|limits| - 1]), now, limits[|limits| - 1].seconds)
  }

  /** The smallest window length among `limits`. */
  function MinSeconds(limits: seq<RateLimit>): (m: int)
    requires limits != []
    ensures forall k :: 0 <= k < |limits| ==> m <= limits[k].seconds
    ensures exists k :: 0 <= k < |limits| && m == limits[k].seconds
  {
    if |limits| == 1 then limits[0].seconds
    else Min(limits[0].seconds, MinSeconds(limits[1..]))
  }

  /** The log of `userId` after `register_request` at time `now`. */
  function Registered(userLogs: map<int, seq<int>>, userId: int, now: int, limits: seq<RateLimit>): map<int, seq<int>>
  {
    var before := if userId in userLogs then userLogs[userId] else [];
    userLogs[userId := Pruned(before + [now], now, limits)]
  }

  /** What `is_rate_limited` answers, as a predicate on the logs. */
  predicate Limited(userLogs: map<int, seq<int>>, userId: int, now: int, limits: seq<RateLimit>)
  {
    userId in userLogs && exists k | 0 <= k < |limits| :: Exceeds(userLogs[userId], now, limits[k])
  }

  class RateLimiter {
    const limits: seq<RateLimit>
    var userLogs: map<int, seq<int>>

    constructor (limits: seq<RateLimit>)
      ensures this.limits == limits && userLogs == map[]
    {
      this.limits := limits;
      userLogs := map[];
    }

    /** Appends `now` to the caller's log (creating it if needed), then
        filters that log by each window in turn. Other users' logs are not
        touched. */
    method RegisterRequest(userId: int, now: int)
      modifies this
      ensures userLogs == Registered(old(userLogs), userId, now, limits)
    {
      if userId !in userLogs {
        userLogs := userLogs[userId := []];
      }
      userLogs := userLogs[userId := userLogs[userId] + [now]];
      ghost var start := userLogs[userId];
      ghost var others := userLogs;
      for i := 0 to |limits|
        invariant userLogs == others[userId := Pruned(start, now, limits[..i])]
      {
        assert limits[..i + 1][..i] == limits[..i];
        userLogs := userLogs[userId := Recent(userLogs[userId], now, limits[i].seconds)];
      }
      assert limits[..|limits|] == limits;
    }

    /** False for a user never registered; otherwise true as soon as one
        window is exceeded. Reads the logs without changing them. */
    method IsRateLimited(userId: int, now: int) returns (limited: bool)
      ensures limited <==> Limited(userLogs, userId, now, limits)
    {
      if userId !in userLogs {
        return false;
      }
      for i := 0 to |limits|
        invariant forall k :: 0 <= k < i ==> !Exceeds(userLogs[userId], now, limits[k])
      {
        if IsLimited(userId, limits[i], now) {
          return true;
        }
      }
      return false;
    }

    predicate IsLimited(userId: int, limit: RateLimit, now: int)
      reads this
      requires userId in userLogs
    {
      Exceeds(userLogs[userId], now, limit)
    }
  }

  /** Filtering by two windows keeps what the smaller window keeps. */
  lemma {:induction false} RecentTwice(logs: seq<int>, now: int, a: int, b: int)
    ensures Recent(Recent(logs, now, a), now, b) == Recent(logs, now, Min(a, b))
  {
    if logs != [] {
      RecentTwice(logs[1..], now, a, b);
    }
  }

  /** `_cleanup` prunes the log to the smallest window: the larger windows
      have no effect on what is kept. */
  lemma {:induction false} PrunedToSmallestWindow(logs: seq<int>, now: int, limits: seq<RateLimit>)
    requires limits != []
    ensures Pruned(logs, now, limits) == Recent(logs, now, MinSeconds(limits))
    decreases |limits|
  {
    var init := limits[..|limits| - 1];
    var last := limits[|limits| - 1];
    if |limits| == 1 {
      assert Pruned(logs, now, init) == logs;
    } else {
      var p := Pruned(logs, now, init);
      assert Pruned(logs, now, limits) == Recent(p, now, last.seconds);
      PrunedToSmallestWindow(logs, now, init);
      RecentTwice(logs, now, MinSeconds(init), last.seconds);
      MinSecondsSnoc(init, last);
      assert init + [last] == limits;
    }
  }

  lemma {:induction false} MinSecondsSnoc(init: seq<RateLimit>, last: RateLimit)
    requires init != []
    ensures MinSeconds(init + [last]) == Min(MinSeconds(init), last.seconds)
    decreases |init|
  {
    if |init| == 1 {
      assert (init + [last])[1..] == [last];
    } else {
      assert (init + [last])[1..] == init[1..] + [last];
      MinSecondsSnoc(init[1..], last);
    }
  }

  /** With no windows nothing is pruned. */
  lemma NoWindowsKeepEverything(logs: seq<int>, now: int)
    ensures Pruned(logs, now, []) == logs
  {
  }

  /** With positive window lengths, the request just registered survives
      pruning and is the last entry of the caller's log. */
  lemma {:induction false} FreshRequestSurvives(userLogs: map<int, seq<int>>, userId: int, now: int, limits: seq<RateLimit>)
    requires forall k :: 0 <= k < |limits| ==> limits[k].seconds > 0
    ensures var logs := Registered(userLogs, userId, now, limits)[userId];
            logs != [] && logs[|logs| - 1] == now
  {
    var before := if userId in userLogs then userLogs[userId] else [];
    LastSurvives(before + [now], now, limits);
  }

  lemma {:induction false} LastSurvives(logs: seq<int>, now: int, limits: seq<RateLimit>)
    requires logs != [] && logs[|logs| - 1] == now
    requires forall k :: 0 <= k < |limits| ==> limits[k].seconds > 0
    ensures var p := Pruned(logs, now, limits); p != [] && p[|p| - 1] == now
    decreases |limits|
  {
    if limits != [] {
      LastSurvives(logs, now, limits[..|limits| - 1]);
      RecentKeepsLast(Pruned(logs, now, limits[..|limits| - 1]), now, limits[|limits| - 1].seconds);
    }
  }

  lemma {:induction false} RecentKeepsLast(logs: seq<int>, now: int, seconds: int)
    requires logs != [] && logs[|logs| - 1] == now && seconds > 0
    ensures var r := Recent(logs, now, seconds); r != [] && r[|r| - 1] == now
  {
    if |logs| > 1 {
      RecentKeepsLast(logs[1..], now, seconds);
    }
  }

  /** With no windows configured nobody is ever limited. */
  lemma NoWindowsNeverLimited(userLogs: map<int, seq<int>>, userId: int, now: int)
    ensures !Limited(userLogs, userId, now, [])
  {
  }

  /** A user id never registered is never limited. */
  lemma UnknownUserNotLimited(userLogs: map<int, seq<int>>, userId: int, now: int, limits: seq<RateLimit>)
    requires userId !in userLogs
    ensures !Limited(userLogs, userId, now, limits)
  {
  }

  /** Registering touches only the caller's entry. */
  lemma RegisterTouchesOnlyCaller(userLogs: map<int, seq<int>>, userId: int, other: int, now: int, limits: seq<RateLimit>)
    requires other != userId
    ensures other in Registered(userLogs, userId, now, limits) <==> other in userLogs
    ensures other in userLogs ==> Registered(userLogs, userId, now, limits)[other] == userLogs[other]
  {
  }

  lemma {:induction false} RecentAllNew(logs: seq<int>, now: int, seconds: int)
    requires forall k :: 0 <= k < |logs| ==> logs[k] > now - seconds
    ensures Recent(logs, now, seconds) == logs
  {
    if logs != [] {
      RecentAllNew(logs[1..], now, seconds);
      assert logs == [logs[0]] + logs[1..];
    }
  }

  lemma PrunedOneWindow(logs: seq<int>, now: int, limit: RateLimit)
    ensures Pruned(logs, now, [limit]) == Recent(logs, now, limit.seconds)
  {
    assert [limit][..0] == [];
  }

  /** Registering at `now` a user whose log holds only `now` appends `now`
      and keeps the whole log under a window of `limit`. */
  lemma RegisteredSameInstant(userLogs: map<int, seq<int>>, userId: int, now: int, limit: RateLimit, n: nat)
    requires limit.seconds > 0
    requires if n == 0 then userId !in userLogs else userId in userLogs && userLogs[userId] == seq(n, _ => now)
    ensures var l := Registered(userLogs, userId, now, [limit]);
            userId in l && l[userId] == seq(n + 1, _ => now)
  {
    var before := if userId in userLogs then userLogs[userId] else [];
    var logs := before + [now];
    assert logs == seq(n + 1, _ => now);
    PrunedOneWindow(logs, now, limit);
    RecentAllNew(logs, now, limit.seconds);
  }

  /** The logs after `k` registrations of `userId` at the same instant. */
  function RegisteredTimes(userLogs: map<int, seq<int>>, userId: int, now: int, limits: seq<RateLimit>, k: nat): map<int, seq<int>>
  {
    if k == 0 then userLogs else Registered(RegisteredTimes(userLogs, userId, now, limits, k - 1), userId, now, limits)
  }

  /** From no logs, `k` registrations at one instant under one positive
      window leave `k` copies of that instant. */
  lemma {:induction false} SameInstantLogs(userId: int, now: int, limit: RateLimit, k: nat)
    requires limit.seconds > 0
    ensures var l := RegisteredTimes(map[], userId, now, [limit], k);
            if k == 0 then userId !in l else userId in l && l[userId] == seq(k, _ => now)
  {
    if k > 0 {
      SameInstantLogs(userId, now, limit, k - 1);
      RegisteredSameInstant(RegisteredTimes(map[], userId, now, [limit], k - 1), userId, now, limit, k - 1);
    }
  }

  /** The window test is strict: from no logs, `k` registrations at one
      instant leave the user limited exactly when `k` is more than the
      window's n_messages. */
  lemma SameInstantLimited(userId: int, now: int, limit: RateLimit, k: nat)
    requires limit.seconds > 0
    ensures Limited(RegisteredTimes(map[], userId, now, [limit], k), userId, now, [limit])
            <==> k > 0 && k > limit.nMessages
  {
    SameInstantLogs(userId, now, limit, k);
    if k > 0 {
      var logs := seq(k, _ => now);
      RecentAllNew(logs, now, limit.seconds);
      assert Exceeds(logs, now, [limit][0]) <==> k > limit.nMessages;
    }
  }

  /** With a single 3-per-60 window, a user who has registered three
      requests at one instant is not limited and one who has registered a
      fourth is: registering before checking, as the message parser does,
      lets three requests through. */
  lemma ThreePerMinute(userId: int, now: int)
    ensures var limits := [RateLimit(3, 60)];
            !Limited(RegisteredTimes(map[], userId, now, limits, 3), userId, now, limits)
            && Limited(RegisteredTimes(map[], userId, now, limits, 4), userId, now, limits)
  {
    SameInstantLimited(userId, now, RateLimit(3, 60), 3);
    SameInstantLimited(userId, now, RateLimit(3, 60), 4);
  }
}
