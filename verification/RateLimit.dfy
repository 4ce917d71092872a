/**
 The fixed-window counters of re-authentication attempts. Each attempt counts for its user and
 for its address; a counter starts with the first attempt and expires one window later.
*/
module RateLimit {
  datatype Key = User(id: string) | Address(ip: string)

  /** One increment, made by an attempt at a time. The two of an attempt may come apart. */
  datatype Tick = Tick(attempt: nat, key: Key, at: int)

  datatype Counter = Counter(count: nat, expires: int)

  type Counters = map<Key, Counter>

  /** The atomic script: count up, and set the expiry with the first count. */
  function Increment(c: Counters, t: Tick, window: nat): Counters {
    if t.key in c && t.at < c[t.key].expires
    then c[t.key := Counter(c[t.key].count + 1, c[t.key].expires)]
    else c[t.key := Counter(1, t.at + window)]
  }

  /** The attempts whose count for `key` is within the limit, made between `from` and one window later. */
  function Passing(c: Counters, ticks: seq<Tick>, key: Key, from: int, window: nat, limit: nat): set<nat>
    decreases |ticks|
  {
    if ticks == [] then {}
    else
      var t := ticks[0];
      var next := Increment(c, t, window);
      Passing(next, ticks[1..], key, from, window, limit)
      + if t.key == key && from <= t.at <= from + window && next[key].count <= limit then {t.attempt} else {}
  }

  predicate Monotone(ticks: seq<Tick>) {
    forall i, j :: 0 <= i < j < |ticks| ==> ticks[i].at <= ticks[j].at
  }

  /** The attempts that both counters admit. */
  function Admitted(ticks: seq<Tick>, user: Key, address: Key, from: int, window: nat, limit: nat): set<nat> {
    Passing(map[], ticks, user, from, window, limit) * Passing(map[], ticks, address, from, window, limit)
  }

  /** How many windows that start at `e` or later can still count. */
  function WindowsFrom(e: int, from: int, window: nat): nat {
    if e > from + window then 0 else if e > from then 1 else 2
  }

  /** How many more attempts can pass, once the time is `now`. */
  function Budget(c: Counters, key: Key, now: int, from: int, window: nat, limit: nat): nat {
    if now > from + window then 0
    else if key !in c then 2 * limit
    else
      (if c[key].expires > from && c[key].count < limit then limit - c[key].count else 0)
      + limit * WindowsFrom(c[key].expires, from, window)
  }

  lemma BudgetShrinks(c: Counters, key: Key, now: int, later: int, from: int, window: nat, limit: nat)
    requires now <= later
    ensures Budget(c, key, later, from, window, limit) <= Budget(c, key, now, from, window, limit)
  {
  }

  /** An attempt that passes is paid for by the budget. */
  lemma TickIsPaid(c: Counters, t: Tick, key: Key, from: int, window: nat, limit: nat)
    requires window > 0
    ensures var next := Increment(c, t, window);
            var passes := t.key == key && from <= t.at <= from + window && next[key].count <= limit;
            Budget(next, key, t.at, from, window, limit) + (if passes then 1 else 0)
            <= Budget(c, key, t.at, from, window, limit)
  {
    var next := Increment(c, t, window);
    if t.key == key && t.at <= from + window {
      assert next[key].count >= 1;
      assert limit * 0 == 0 && limit * 1 == limit && limit * 2 == 2 * limit;
    }
  }

  lemma {:induction false} PassingWithinBudget(c: Counters, ticks: seq<Tick>, key: Key, now: int, from: int, window: nat,
                                               limit: nat)
    requires window > 0 && Monotone(ticks) && (ticks != [] ==> now <= ticks[0].at)
    ensures |Passing(c, ticks, key, from, window, limit)| <= Budget(c, key, now, from, window, limit)
    decreases |ticks|
  {
    if ticks != [] {
      var t := ticks[0];
      var next := Increment(c, t, window);
      var rest := ticks[1..];
      assert Monotone(rest);
      assert rest != [] ==> t.at <= rest[0].at;
      PassingWithinBudget(next, rest, key, t.at, from, window, limit);
      TickIsPaid(c, t, key, from, window, limit);
      BudgetShrinks(c, key, now, t.at, from, window, limit);
      AddOne(Passing(next, rest, key, from, window, limit), t.attempt);
    }
  }

  lemma AddOne(s: set<nat>, x: nat)
    ensures |s + {x}| <= |s| + 1
  {
    if x in s { assert s + {x} == s; }
  }

  /** In any interval of one window, at most twice the limit is admitted for a user, and for an address. */
  lemma AtMostTwiceTheLimit(ticks: seq<Tick>, user: Key, address: Key, from: int, window: nat, limit: nat)
    requires window > 0 && Monotone(ticks)
    ensures |Passing(map[], ticks, user, from, window, limit)| <= 2 * limit
    ensures |Passing(map[], ticks, address, from, window, limit)| <= 2 * limit
    ensures |Admitted(ticks, user, address, from, window, limit)| <= 2 * limit
  {
    var now := if ticks == [] then from else ticks[0].at;
    PassingWithinBudget(map[], ticks, user, now, from, window, limit);
    PassingWithinBudget(map[], ticks, address, now, from, window, limit);
    Fewer(Passing(map[], ticks, user, from, window, limit), Passing(map[], ticks, address, from, window, limit));
  }

  lemma Fewer(a: set<nat>, b: set<nat>)
    ensures |a * b| <= |a|
  {
    assert a == a * b + (a - b);
    assert |a| == |a * b| + |a - b|;
  }

  // ---- The bound is reached, and needs a window ----

  /** `n` attempts at once, numbered from `first`. */
  function Burst(first: nat, n: nat, key: Key, at: int): seq<Tick> {
    seq(n, i requires 0 <= i < n => Tick(first + i, key, at))
  }

  predicate Within(i: nat, first: nat, n: nat) { first <= i < first + n }

  function Numbers(first: nat, n: nat): set<nat> { set i: nat | first <= i < first + n && Within(i, first, n) }

  function After(c: Counters, ticks: seq<Tick>, window: nat): Counters
    decreases |ticks|
  {
    if ticks == [] then c else After(Increment(c, ticks[0], window), ticks[1..], window)
  }

  lemma {:induction false} PassingJoined(c: Counters, a: seq<Tick>, b: seq<Tick>, key: Key, from: int, window: nat,
                                         limit: nat)
    ensures Passing(c, a + b, key, from, window, limit)
         == Passing(c, a, key, from, window, limit) + Passing(After(c, a, window), b, key, from, window, limit)
    decreases |a|
  {
    if a == [] {
      assert a + b == b;
    } else {
      assert (a + b)[1..] == a[1..] + b;
      PassingJoined(Increment(c, a[0], window), a[1..], b, key, from, window, limit);
    }
  }

  /** Attempts in a live window with room for them all pass, and leave its end where it is. */
  lemma {:induction false} LiveBurst(c: Counters, first: nat, n: nat, key: Key, at: int, from: int, window: nat, limit: nat)
    requires key in c && at < c[key].expires && c[key].count + n <= limit && from <= at <= from + window
    ensures Passing(c, Burst(first, n, key, at), key, from, window, limit) == Numbers(first, n)
    ensures var after := After(c, Burst(first, n, key, at), window);
            key in after && after[key].expires == c[key].expires
    decreases n
  {
    if n > 0 {
      var ticks := Burst(first, n, key, at);
      assert ticks[1..] == Burst(first + 1, n - 1, key, at);
      LiveBurst(Increment(c, ticks[0], window), first + 1, n - 1, key, at, from, window, limit);
      assert Numbers(first, n) == Numbers(first + 1, n - 1) + {first};
    }
  }

  /** The same at the start of a window. */
  lemma FreshBurst(c: Counters, first: nat, n: nat, key: Key, at: int, from: int, window: nat, limit: nat)
    requires key !in c || c[key].expires <= at
    requires 1 <= n <= limit && window > 0 && from <= at <= from + window
    ensures Passing(c, Burst(first, n, key, at), key, from, window, limit) == Numbers(first, n)
    ensures var after := After(c, Burst(first, n, key, at), window);
            key in after && after[key].expires == at + window
  {
    var ticks := Burst(first, n, key, at);
    assert ticks[1..] == Burst(first + 1, n - 1, key, at);
    LiveBurst(Increment(c, ticks[0], window), first + 1, n - 1, key, at, from, window, limit);
    assert Numbers(first, n) == Numbers(first + 1, n - 1) + {first};
  }

  lemma {:induction false} HowMany(first: nat, n: nat)
    ensures |Numbers(first, n)| == n
    decreases n
  {
    if n > 0 {
      HowMany(first + 1, n - 1);
      assert Numbers(first, n) == Numbers(first + 1, n - 1) + {first};
    }
  }

  /** Twice the limit does pass: one full burst at each end of the interval. */
  lemma TwiceTheLimitIsReached(key: Key, window: nat, limit: nat)
    requires window > 0 && limit > 0
    ensures var ticks := Burst(0, limit, key, 0) + Burst(limit, limit, key, window);
            Monotone(ticks) && |Passing(map[], ticks, key, 0, window, limit)| == 2 * limit
  {
    hide Passing, After;
    var a, b := Burst(0, limit, key, 0), Burst(limit, limit, key, window);
    PassingJoined(map[], a, b, key, 0, window, limit);
    FreshBurst(map[], 0, limit, key, 0, 0, window, limit);
    FreshBurst(After(map[], a, window), limit, limit, key, window, 0, window, limit);
    HowMany(0, 2 * limit);
    assert Numbers(0, 2 * limit) == Numbers(0, limit) + Numbers(limit, limit);
  }

  lemma {:induction false} NoWindowAllPass(c: Counters, first: nat, n: nat, key: Key, at: int, limit: nat)
    requires limit > 0 && (key in c ==> c[key].expires <= at)
    ensures Passing(c, Burst(first, n, key, at), key, at, 0, limit) == Numbers(first, n)
    decreases n
  {
    if n > 0 {
      var ticks := Burst(first, n, key, at);
      assert ticks[1..] == Burst(first + 1, n - 1, key, at);
      NoWindowAllPass(Increment(c, ticks[0], 0), first + 1, n - 1, key, at, limit);
      assert Numbers(first, n) == Numbers(first + 1, n - 1) + {first};
    }
  }

  /** With a window of no length every counter expires at once, and any number passes. */
  lemma NoWindowNoLimit(c: Counters, first: nat, n: nat, key: Key, at: int, limit: nat)
    requires limit > 0 && (key in c ==> c[key].expires <= at)
    ensures |Passing(c, Burst(first, n, key, at), key, at, 0, limit)| == n
    ensures Passing(c, Burst(first, n, key, at), key, at, 0, limit) == Numbers(first, n)
  {
    hide Passing, Burst;
    NoWindowAllPass(c, first, n, key, at, limit);
    HowMany(first, n);
  }

  // ---- Who is refused ----

  /** The attempts counted for `key` at `from` or later. */
  function CountSince(ticks: seq<Tick>, key: Key, from: int): nat {
    if ticks == [] then 0
    else
      var t := ticks[|ticks| - 1];
      CountSince(ticks[..|ticks| - 1], key, from) + if t.key == key && t.at >= from then 1 else 0
  }

  predicate Attempted(ticks: seq<Tick>, key: Key) { exists t <- ticks :: t.key == key }

  /** A window opened with an attempt on the key, and every attempt since then, and no other, is counted. */
  predicate CountsWindow(ticks: seq<Tick>, key: Key, c: Counter, window: nat) {
    && AttemptAt(ticks, key, c.expires - window)
    && c.count == CountSince(ticks, key, c.expires - window)
    && forall t <- ticks :: t.key == key ==> t.at < c.expires
  }

  /** An attempt on the key was made at that time. */
  predicate AttemptAt(ticks: seq<Tick>, key: Key, at: int) { exists t <- ticks :: t.key == key && t.at == at }

  lemma {:induction false} NothingCounted(ticks: seq<Tick>, key: Key, from: int)
    requires forall t <- ticks :: t.key == key ==> t.at < from
    ensures CountSince(ticks, key, from) == 0
  {
    if ticks != [] {
      NothingCounted(ticks[..|ticks| - 1], key, from);
    }
  }

  lemma {:induction false} CountsMore(ticks: seq<Tick>, key: Key, from: int, earlier: int)
    requires earlier <= from
    ensures CountSince(ticks, key, from) <= CountSince(ticks, key, earlier)
  {
    if ticks != [] {
      CountsMore(ticks[..|ticks| - 1], key, from, earlier);
    }
  }

  lemma {:induction false} AfterMore(c: Counters, ticks: seq<Tick>, t: Tick, window: nat)
    ensures After(c, ticks + [t], window) == Increment(After(c, ticks, window), t, window)
    decreases |ticks|
  {
    if ticks == [] {
      assert [t][1..] == [] && [] + [t] == [t];
    } else {
      assert (ticks + [t])[0] == ticks[0] && (ticks + [t])[1..] == ticks[1..] + [t];
      AfterMore(Increment(c, ticks[0], window), ticks[1..], t, window);
    }
  }

  lemma Last(before: seq<Tick>, t: Tick)
    ensures var ticks := before + [t];
            ticks[..|ticks| - 1] == before && ticks[|ticks| - 1] == t && forall s :: s in ticks <==> s in before || s == t
  {
  }

  lemma LastIsLatest(before: seq<Tick>, t: Tick)
    requires Monotone(before + [t])
    ensures forall s <- before :: s.at <= t.at
  {
    var ticks := before + [t];
    forall s | s in before ensures s.at <= t.at {
      var i :| 0 <= i < |before| && before[i] == s;
      assert ticks[i] == s && ticks[|before|] == t;
    }
  }

  lemma WindowGoesOn(before: seq<Tick>, t: Tick, key: Key, window: nat, c: Counter)
    requires window > 0 && CountsWindow(before, key, c, window)
    requires t.key == key ==> t.at < c.expires && t.at >= c.expires - window
    ensures CountsWindow(before + [t], key, if t.key == key then Counter(c.count + 1, c.expires) else c, window)
  {
    Last(before, t);
  }

  lemma WindowOpens(before: seq<Tick>, t: Tick, window: nat)
    requires window > 0 && Monotone(before + [t]) && forall s <- before :: s.key == t.key ==> s.at < t.at
    ensures CountsWindow(before + [t], t.key, Counter(1, t.at + window), window)
  {
    Last(before, t);
    NothingCounted(before, t.key, t.at);
  }

  lemma OneMoreTick(before: seq<Tick>, t: Tick, key: Key, window: nat, c: Counters)
    requires window > 0 && Monotone(before + [t]) && (key in c <==> Attempted(before, key))
    requires key in c ==> CountsWindow(before, key, c[key], window)
    ensures var next, ticks := Increment(c, t, window), before + [t];
            (key in next <==> Attempted(ticks, key)) && (key in next ==> CountsWindow(ticks, key, next[key], window))
  {
    hide CountsWindow, Monotone;
    Last(before, t);
    LastIsLatest(before, t);
    if key in c { WindowSays(before, key, c[key], window); }
    if t.key == key && !(key in c && t.at < c[key].expires) {
      WindowOpens(before, t, window);
    } else if key in c {
      WindowGoesOn(before, t, key, window, c[key]);
    }
  }

  lemma WindowSays(ticks: seq<Tick>, key: Key, c: Counter, window: nat)
    requires CountsWindow(ticks, key, c, window)
    ensures AttemptAt(ticks, key, c.expires - window) && forall t <- ticks :: t.key == key ==> t.at < c.expires
  {
  }

  /** After any attempts, a counter stands for the attempts since its window was opened, none of them too late for it. */
  lemma {:induction false} CountersExactly(ticks: seq<Tick>, key: Key, window: nat)
    requires window > 0 && Monotone(ticks)
    ensures key in After(map[], ticks, window) <==> Attempted(ticks, key)
    ensures key in After(map[], ticks, window) ==> CountsWindow(ticks, key, After(map[], ticks, window)[key], window)
  {
    hide Increment, CountsWindow;
    if ticks != [] {
      var before, t := ticks[..|ticks| - 1], ticks[|ticks| - 1];
      assert ticks == before + [t];
      CountersExactly(before, key, window);
      AfterMore(map[], before, t, window);
      OneMoreTick(before, t, key, window, After(map[], before, window));
    }
  }

  /** An attempt is refused only if as many as the limit were made for its key less than one window before. */
  lemma RefusedAfterLimit(ticks: seq<Tick>, t: Tick, window: nat, limit: nat)
    requires window > 0 && limit > 0 && Monotone(ticks + [t])
    requires Increment(After(map[], ticks, window), t, window)[t.key].count > limit
    ensures CountSince(ticks, t.key, t.at - window + 1) >= limit
  {
    assert ticks == (ticks + [t])[..|ticks|];
    CountersExactly(ticks, t.key, window);
    var c := After(map[], ticks, window);
    assert t.key in c && t.at < c[t.key].expires;
    CountsMore(ticks, t.key, c[t.key].expires - window, t.at - window + 1);
  }
}
