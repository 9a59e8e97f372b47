/** The condition under which a live series is never lost cannot be weakened: whenever it fails, the
    same schedules lose any live series. */
module RetentionLimit {
  import opened Base
  import RotationLoops
  import opened Retention

  ghost predicate Reachable(s: Setup, n: nat, w: World) {
    exists run: seq<World> :: IsRun(s, run) && |run[0].buckets| == n && run[|run| - 1] == w
  }

  lemma Extend(s: Setup, n: nat, v: World, w: World)
    requires Reachable(s, n, v) && Next(s, v, w)
    ensures Reachable(s, n, w)
  {
    var run: seq<World> :| IsRun(s, run) && |run[0].buckets| == n && run[|run| - 1] == v;
    var longer := run + [w];
    forall i | 0 <= i < |longer| - 1 ensures Next(s, longer[i], longer[i + 1]) {
      assert i < |run| - 1 ==> Next(s, run[i], run[i + 1]);
    }
    assert IsRun(s, longer) && longer[|longer| - 1] == w;
  }

  /** The clocks, with n buckets: home is due next at time due. */
  ghost predicate Ticking(s: Setup, n: nat, w: World, home: nat, due: int) {
    && Reachable(s, n, w) && Timely(s) && 0 < s.delta
    && |w.buckets| == n && w.bucketIdx < n && home < n
    && |w.filters| == SLOTS && w.slotIdx < SLOTS
    && w.now <= w.nextTick + s.late && w.now <= w.nextClear + s.late
    && Due(w.nextTick, w.bucketIdx, home, n, s.period) == due
  }

  /** The slot is due to be cleared next at time cleared. */
  ghost predicate ClearedAt(s: Setup, w: World, slot: nat, cleared: int) {
    && slot < SLOTS && w.slotIdx < SLOTS
    && Due(w.nextClear, w.slotIdx, slot, SLOTS, s.clearing) == cleared
  }

  ghost function Ticked(s: Setup, v: World): World
    requires v.bucketIdx < |v.buckets|
  {
    v.(buckets := v.buckets[v.bucketIdx := Bucket({}, v.buckets[v.bucketIdx].cur)],
       bucketIdx := (v.bucketIdx + 1) % |v.buckets|,
       nextTick := v.nextTick + s.period)
  }

  ghost function Cleared(s: Setup, v: World): World
    requires v.slotIdx < |v.filters|
  {
    v.(filters := v.filters[v.slotIdx := {}],
       slotIdx := (v.slotIdx + 1) % SLOTS,
       nextClear := v.nextClear + s.clearing)
  }

  /** A boundary before the due time is that of another bucket. */
  lemma OthersTick(s: Setup, n: nat, v: World, home: nat, due: int)
    requires Ticking(s, n, v, home, due) && v.nextTick <= v.now && v.nextTick < due
    ensures v.bucketIdx != home && Ticking(s, n, Ticked(s, v), home, due) && Ticked(s, v).nextTick > v.now
  {
    DueAdvances(v.nextTick, v.bucketIdx, home, n, s.period);
    DueBounds(v.nextTick, v.bucketIdx, home, n, s.period);
    assert Tick(s, v, Ticked(s, v));
    Extend(s, n, v, Ticked(s, v));
  }

  /** A clear is that of the slot exactly at its boundary, which then moves a full round on. */
  lemma AnyClear(s: Setup, n: nat, v: World, home: nat, due: int, slot: nat, cleared: int)
    requires Ticking(s, n, v, home, due) && v.nextClear <= v.now && ClearedAt(s, v, slot, cleared)
    ensures Ticking(s, n, Cleared(s, v), home, due) && Cleared(s, v).nextClear > v.now
    ensures v.slotIdx == slot <==> cleared == v.nextClear
    ensures ClearedAt(s, Cleared(s, v), slot, if v.slotIdx == slot then cleared + Suppression(s) else cleared)
  {
    var w := Cleared(s, v);
    assert Clear(s, v, w);
    Extend(s, n, v, w);
    DueAdvances(v.nextClear, v.slotIdx, slot, SLOTS, s.clearing);
    DueBounds(v.nextClear, v.slotIdx, slot, SLOTS, s.clearing);
    if v.slotIdx != slot {
      LaterTurn(v.nextClear, v.slotIdx, slot, SLOTS, s.clearing);
    }
  }

  lemma LaterTurn(next: nat, at: nat, i: nat, n: nat, step: nat)
    requires at < n && i < n && at != i && 0 < step
    ensures Due(next, at, i, n, step) > next
  {
    var a := Ahead(at, i, n);
    Distribute(a - 1, 1, step);
    assert (a - 1) * step >= 0;
  }

  /** How many boundaries there are to serve. */
  ghost function Pending(w: World): nat {
    (if w.nextTick <= w.now then 1 else 0) + if w.nextClear <= w.now then 1 else 0
  }

  /* Before the first arrival */

  /** Nothing has arrived yet, and the slot is cleared a multiple of rounds before the last moment at
      which home can rotate. */
  ghost predicate Idle(s: Setup, n: nat, w: World, home: nat, due: nat, slot: nat, rounds: nat) {
    && Ticking(s, n, w, home, due) && w.now <= due + s.late && w.now <= w.nextClear
    && ClearedAt(s, w, slot, due + s.late + Suppression(s) - rounds * Suppression(s))
    && w.arrived == map[] && w.passed == map[] && w.wiped == {}
    && (forall i | 0 <= i < n :: w.buckets[i] == Bucket({}, {}))
    && (forall i | 0 <= i < SLOTS :: w.filters[i] == {})
  }

  lemma FewerRounds(base: int, rounds: nat, round: nat)
    ensures base - rounds * round + round == base - (rounds - 1) * round
    ensures base - rounds * round > base - round ==> rounds == 0
  {
    Distribute(rounds - 1, 1, round);
    assert rounds > 0 ==> (rounds - 1) * round >= 0;
  }

  /** The last moment before home rotates, with the slot just cleared. */
  ghost predicate Ready(s: Setup, n: nat, w: World, home: nat, due: nat, slot: nat) {
    && Idle(s, n, w, home, due, slot, 0) && w.now == due + s.late
    && due <= w.nextTick && w.now < w.nextClear
  }

  lemma {:induction false} PassIdle(s: Setup, n: nat, v: World, home: nat, due: nat, slot: nat, rounds: nat)
    returns (w: World)
    requires Idle(s, n, v, home, due, slot, rounds)
    ensures Ready(s, n, w, home, due, slot)
    decreases due + s.late - v.now, Pending(v)
  {
    var base := due + s.late + Suppression(s);
    FewerRounds(base, rounds, Suppression(s));
    if v.nextClear == v.now {
      AnyClear(s, n, v, home, due, slot, base - rounds * Suppression(s));
      assert v.slotIdx == slot ==> rounds > 0;
      w := PassIdle(s, n, Cleared(s, v), home, due, slot, if v.slotIdx == slot then rounds - 1 else rounds);
    } else if v.nextTick <= v.now && v.nextTick < due {
      OthersTick(s, n, v, home, due);
      w := PassIdle(s, n, Ticked(s, v), home, due, slot, rounds);
    } else if v.now == due + s.late {
      DueBounds(v.nextClear, v.slotIdx, slot, SLOTS, s.clearing);
      w := v;
    } else {
      var x := v.(now := v.now + 1);
      assert Wait(s, v, x);
      Extend(s, n, v, x);
      w := PassIdle(s, n, x, home, due, slot, rounds);
    }
  }

  /** The place in a round, in turns and what is left of one. */
  lemma PlaceInRound(r: nat, clearing: nat) returns (turns: nat, rest: nat)
    requires 0 < clearing && r < SLOTS * clearing
    ensures turns < SLOTS && rest < clearing && r == turns * clearing + rest
  {
    turns, rest := r / clearing, r % clearing;
    assert r == turns * clearing + rest;
    Distribute(turns - SLOTS, SLOTS, clearing);
    assert turns >= SLOTS ==> (turns - SLOTS) * clearing >= 0;
  }

  /** Where the clears must start so that the slot is cleared a multiple of rounds before a time. */
  lemma ClearPhase(time: nat, clearing: nat, slot: nat) returns (nextClear: nat, slotIdx: nat, rounds: nat)
    requires 0 < clearing && slot < SLOTS
    ensures 0 < nextClear <= clearing && slotIdx < SLOTS
    ensures Due(nextClear, slotIdx, slot, SLOTS, clearing)
            == time + SLOTS * clearing - rounds * (SLOTS * clearing)
  {
    var round := SLOTS * clearing;
    var x := time + round - 1;
    rounds := x / round;
    assert x == rounds * round + x % round;
    var turns, rest := PlaceInRound(x % round, clearing);
    nextClear := rest + 1;
    slotIdx := if turns <= slot then slot - turns else slot + SLOTS - turns;
    assert Ahead(slotIdx, slot, SLOTS) == turns;
  }

  lemma StartReady(s: Setup, n: nat, home: nat, slot: nat) returns (w: World)
    requires Timely(s) && 0 < s.delta && home < n && slot < SLOTS
    ensures Ready(s, n, w, home, home * s.period, slot)
  {
    var due := home * s.period;
    var nextClear, slotIdx, rounds := ClearPhase(due + s.late, s.clearing, slot);
    var a := World(0, 0, 0, seq(n, i => Bucket({}, {})), nextClear, slotIdx, seq(SLOTS, i => {}), map[], map[], {});
    assert IsRun(s, [a]) && [a][|[a]| - 1] == a;
    assert Reachable(s, n, a);
    assert Ahead(0, home, n) == home && due >= 0;
    assert Idle(s, n, a, home, due, slot, rounds);
    w := PassIdle(s, n, a, home, due, slot, rounds);
  }

  /* From the first arrival on */

  /** Series h is left in the previous epoch of its bucket, which is rotated next at time lost. */
  ghost predicate Fading(s: Setup, n: nat, w: World, h: Uint64, home: nat, lost: int) {
    && Ticking(s, n, w, home, lost) && home == h % n
    && w.buckets[home] == Bucket({}, {h}) && w.wiped == {}
    && w.arrived.Keys == {h} && w.arrived[h] <= w.now <= w.arrived[h] + s.delta
  }

  /** The filter of h still has it, and is due to be cleared at the given time. */
  ghost predicate Remembered(s: Setup, w: World, h: Uint64, cleared: int) {
    |w.filters| == SLOTS && h in w.filters[h % SLOTS] && ClearedAt(s, w, h % SLOTS, cleared)
  }

  /** An arrival that the filter drops. */
  lemma Dropped(s: Setup, n: nat, v: World, h: Uint64, home: nat, lost: int, cleared: int) returns (w: World)
    requires Fading(s, n, v, h, home, lost) && Remembered(s, v, h, cleared)
    ensures Fading(s, n, w, h, home, lost) && Remembered(s, w, h, cleared)
    ensures w == v.(arrived := map[h := v.now])
  {
    w := v.(arrived := v.arrived[h := v.now]);
    assert w.arrived == map[h := v.now];
    assert Deliver(s, v, w, h, false, false);
    Extend(s, n, v, w);
  }

  lemma OneUnit(s: Setup, n: nat, v: World, h: Uint64, home: nat, lost: int) returns (w: World)
    requires Fading(s, n, v, h, home, lost)
    requires v.now < v.nextTick + s.late && v.now < v.nextClear + s.late && v.now < v.arrived[h] + s.delta
    ensures Fading(s, n, w, h, home, lost) && w == v.(now := v.now + 1)
  {
    w := v.(now := v.now + 1);
    assert Wait(s, v, w);
    Extend(s, n, v, w);
  }

  /** Boundaries to serve and an arrival, before time can pass. */
  ghost function Owed(s: Setup, w: World, h: Uint64): nat
    requires h in w.arrived
  {
    Pending(w) + if w.arrived[h] + s.delta == w.now then 1 else 0
  }

  /** Until the filter is cleared, as late as that can be, time can pass with all arrivals dropped. */
  lemma {:induction false} PassDropping(s: Setup, n: nat, v: World, h: Uint64, home: nat, lost: int, cleared: int,
                                        target: nat) returns (w: World)
    requires Fading(s, n, v, h, home, lost) && Remembered(s, v, h, cleared)
    requires v.now <= target <= lost && target <= cleared + s.late
    ensures Fading(s, n, w, h, home, lost) && Remembered(s, w, h, cleared) && w.now == target <= w.nextTick
    decreases target - v.now, Owed(s, v, h)
  {
    var x;
    if v.nextTick <= v.now && v.nextTick < lost {
      OthersTick(s, n, v, home, lost);
      x := Ticked(s, v);
    } else if v.now == target {
      w := v;
      return;
    } else if v.nextClear <= v.now && v.slotIdx != h % SLOTS {
      AnyClear(s, n, v, home, lost, h % SLOTS, cleared);
      x := Cleared(s, v);
    } else if v.arrived[h] + s.delta == v.now {
      x := Dropped(s, n, v, h, home, lost, cleared);
    } else {
      x := OneUnit(s, n, v, h, home, lost);
    }
    w := PassDropping(s, n, x, h, home, lost, cleared, target);
  }

  /** Until the next arrival is due, time can pass without any. */
  lemma {:induction false} PassQuietly(s: Setup, n: nat, v: World, h: Uint64, home: nat, lost: int) returns (w: World)
    requires Fading(s, n, v, h, home, lost) && v.now <= lost <= v.arrived[h] + s.delta
    ensures Fading(s, n, w, h, home, lost) && w.now == lost <= w.nextTick
    decreases lost - v.now, Owed(s, v, h)
  {
    var x;
    if v.nextTick <= v.now && v.nextTick < lost {
      OthersTick(s, n, v, home, lost);
      x := Ticked(s, v);
    } else if v.now == lost {
      w := v;
      return;
    } else if v.nextClear <= v.now {
      AnyClear(s, n, v, home, lost, v.slotIdx, v.nextClear);
      x := Cleared(s, v);
    } else {
      x := OneUnit(s, n, v, h, home, lost);
    }
    w := PassQuietly(s, n, x, h, home, lost);
  }

  /** The state after a first delivery to an idle estimator. */
  ghost function Delivered(a: World, h: Uint64, home: nat, slot: nat): (b: World)
    requires home < |a.buckets| && slot < |a.filters|
    requires a.arrived == map[] && a.passed == map[] && a.wiped == {}
    requires a.buckets[home] == Bucket({}, {}) && a.filters[slot] == {}
    ensures |b.buckets| == |a.buckets| && |b.filters| == |a.filters|
    ensures b.buckets[home] == Bucket({h}, {}) && b.filters[slot] == {h}
    ensures b.arrived == map[h := a.now] && b.wiped == {}
  {
    assert {} + {h} == {h};
    a.(arrived := a.arrived[h := a.now], passed := a.passed[h := a.now], wiped := a.wiped - {h},
       buckets := a.buckets[home := a.buckets[home].(cur := a.buckets[home].cur + {h})],
       filters := a.filters[slot := a.filters[slot] + {h}])
  }

  lemma TurnIsHome(next: nat, at: nat, home: nat, n: nat, step: nat, due: int)
    requires at < n && home < n && 0 < step && Due(next, at, home, n, step) == due <= next
    ensures at == home && next == due
  {
    if at != home {
      LaterTurn(next, at, home, n, step);
    } else {
      DueBounds(next, at, home, n, step);
    }
  }

  /** The first delivery, when the rotation of its bucket is as late as it can be and the filter was
      cleared just before. */
  lemma StartFading(s: Setup, n: nat, h: Uint64) returns (w: World)
    requires Timely(s) && 0 < s.delta && 0 < n
    ensures Fading(s, n, w, h, h % n, w.now - s.late + n * s.period)
    ensures Remembered(s, w, h, w.now + Suppression(s)) && w.now < w.nextTick
  {
    var home, slot := h % n, h % SLOTS;
    var a := StartReady(s, n, home, slot);
    TurnIsHome(a.nextTick, a.bucketIdx, home, n, s.period, home * s.period);
    var b := Delivered(a, h, home, slot);
    assert Deliver(s, a, b, h, false, true);
    Extend(s, n, a, b);
    w := Ticked(s, b);
    DueAdvances(b.nextTick, b.bucketIdx, home, n, s.period);
    assert Tick(s, b, w);
    Extend(s, n, b, w);
  }

  /** When the rotation comes and the series has not passed again, it is gone. */
  lemma ThenLost(s: Setup, n: nat, v: World, h: Uint64, home: nat, lost: int) returns (w: World)
    requires Fading(s, n, v, h, home, lost) && v.now == lost <= v.nextTick
    ensures Reachable(s, n, w) && w.buckets != [] && !Visible(w, h) && h in w.arrived && h !in w.wiped
  {
    TurnIsHome(v.nextTick, v.bucketIdx, home, n, s.period, lost);
    w := Ticked(s, v);
    assert Tick(s, v, w);
    Extend(s, n, v, w);
  }

  /* Boundaries served twice */

  ghost function TickedAgain(v: World): World
    requires v.bucketIdx < |v.buckets|
  {
    v.(buckets := v.buckets[v.bucketIdx := Bucket({}, v.buckets[v.bucketIdx].cur)],
       bucketIdx := (v.bucketIdx + 1) % |v.buckets|)
  }

  /** The loop is at a boundary that it can serve again and again. */
  ghost predicate Spinning(s: Setup, n: nat, v: World) {
    !s.strict && Reachable(s, n, v) && |v.buckets| == n && v.bucketIdx < n && v.now == v.nextTick
  }

  lemma SpinsOn(s: Setup, n: nat, v: World)
    requires Spinning(s, n, v)
    ensures Spinning(s, n, TickedAgain(v))
  {
    assert Tick(s, v, TickedAgain(v));
    Extend(s, n, v, TickedAgain(v));
  }

  /** The other buckets rotate until it is the turn of home. */
  lemma {:induction false} UntilTurn(s: Setup, n: nat, v: World, home: nat) returns (w: World)
    requires Spinning(s, n, v) && home < n
    ensures Spinning(s, n, w) && w.bucketIdx == home && w.buckets[home] == v.buckets[home]
    ensures w.arrived == v.arrived && w.wiped == v.wiped
    decreases Ahead(v.bucketIdx, home, n)
  {
    if v.bucketIdx == home {
      w := v;
    } else {
      SpinsOn(s, n, v);
      AheadAdvances(v.bucketIdx, home, n);
      w := UntilTurn(s, n, TickedAgain(v), home);
    }
  }

  lemma HomeRotates(s: Setup, n: nat, v: World, home: nat) returns (w: World)
    requires Spinning(s, n, v) && home < n
    ensures Spinning(s, n, w) && w.buckets[home] == Bucket({}, v.buckets[home].cur)
    ensures w.arrived == v.arrived && w.wiped == v.wiped
  {
    var u := UntilTurn(s, n, v, home);
    SpinsOn(s, n, u);
    w := TickedAgain(u);
  }

  /** A series delivered at a boundary can be gone at that boundary. */
  lemma LostAtOnce(s: Setup, n: nat, h: Uint64) returns (w: World)
    requires Timely(s) && 0 < n && !s.strict
    ensures Reachable(s, n, w) && w.buckets != [] && !Visible(w, h) && h in w.arrived && h !in w.wiped
  {
    var home, slot := h % n, h % SLOTS;
    var a := World(0, 0, 0, seq(n, i => Bucket({}, {})), s.clearing, 0, seq(SLOTS, i => {}), map[], map[], {});
    assert IsRun(s, [a]) && [a][|[a]| - 1] == a;
    var b := Delivered(a, h, home, slot);
    assert Deliver(s, a, b, h, false, true);
    Extend(s, n, a, b);
    var c := HomeRotates(s, n, b, home);
    w := HomeRotates(s, n, c, home);
  }

  /* Main results */

  /** If a round of clears and the longest gap do not fit into the time between two rotations, with
      how late a clear and a rotation can be, some schedule loses a live series: it arrives all the
      time and yet is not visible. */
  lemma LiveSeriesCanBeLost(s: Setup, n: nat, h: Uint64) returns (w: World)
    requires Timely(s) && 0 < s.delta && 0 < n
    requires Suppression(s) + s.delta + 2 * s.late >= n * s.period
    ensures Reachable(s, n, w) && w.buckets != [] && !Visible(w, h) && h in w.arrived && h !in w.wiped
  {
    var home := h % n;
    var v := StartFading(s, n, h);
    var lost, cleared := v.now - s.late + n * s.period, v.now + Suppression(s);
    DueBounds(v.nextTick, v.bucketIdx, home, n, s.period);
    if lost <= cleared + s.late {
      v := PassDropping(s, n, v, h, home, lost, cleared, lost);
    } else {
      v := PassDropping(s, n, v, h, home, lost, cleared, cleared + s.late);
      v := Dropped(s, n, v, h, home, lost, cleared);
      v := PassQuietly(s, n, v, h, home, lost);
    }
    w := ThenLost(s, n, v, h, home, lost);
  }

  /** A live series whose bucket is not reset is visible in every reachable state from its first
      arrival on exactly if no boundary is served twice and a round of clears, the longest gap between
      arrivals, and how late a clear and a rotation can be fit strictly between two rotations. */
  lemma NeverLostIff(s: Setup, n: nat, h: Uint64)
    requires Timely(s) && 0 < s.delta && 0 < n && h in s.live
    ensures (forall w: World | Reachable(s, n, w) ::
               w.buckets != [] && (h in w.arrived && h !in w.wiped ==> Visible(w, h)))
            <==> s.strict && Suppression(s) + s.delta + 2 * s.late < n * s.period
  {
    if !s.strict {
      var w := LostAtOnce(s, n, h);
    } else if Suppression(s) + s.delta + 2 * s.late < n * s.period {
      forall w: World | Reachable(s, n, w)
        ensures w.buckets != [] && (h in w.arrived && h !in w.wiped ==> Visible(w, h))
      {
        var run: seq<World> :| IsRun(s, run) && |run[0].buckets| == n && run[|run| - 1] == w;
        TimedRetention(s, run, h);
        if h in w.arrived {
          LiveSeriesNeverLost(s, run, h);
        }
      }
    } else {
      var w := LiveSeriesCanBeLost(s, n, h);
    }
  }
}
