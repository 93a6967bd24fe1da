/** The token bucket: refilled lazily, in whole seconds, with 64-bit unsigned arithmetic. */
module RateLimiter {

  const TWO64: nat := 0x1_0000_0000_0000_0000

  type Word = n: nat | n < TWO64

  datatype Bucket = Bucket(capacity: Word, rate: Word, tokens: Word, last: int) {
    predicate Valid() { tokens <= capacity }
  }

  datatype Request = Request(now: int, want: Word)

  function Min(a: int, b: int): int { if a <= b then a else b }

  function Max(a: int, b: int): int { if a >= b then a else b }

  // ---- The bucket as written -----------------------------------------------------------------

  /** rate_limiter_refill: product and sum wrap around, then the capacity caps. */
  function Refilled(b: Bucket, now: int): Bucket {
    if now - b.last > 0 then
      var sum := (b.tokens + (now - b.last) * b.rate % TWO64) % TWO64;
      b.(tokens := if sum > b.capacity then b.capacity else sum, last := now)
    else b
  }

  /** rate_limiter_acquire on an enabled limiter. */
  function Acquired(b: Bucket, q: Request): (Bucket, bool) {
    var b' := Refilled(b, q.now);
    if b'.tokens >= q.want then (b'.(tokens := b'.tokens - q.want), true) else (b', false)
  }

  // ---- The bucket that is refilled every second -------------------------------------------------

  function Tick(b: Bucket): Bucket {
    b.(tokens := Min(b.capacity, b.tokens + b.rate), last := b.last + 1)
  }

  function Ticks(b: Bucket, k: nat): Bucket {
    if k == 0 then b else Tick(Ticks(b, k - 1))
  }

  /** One tick per second until now. */
  function CatchUp(b: Bucket, now: int): Bucket {
    if now > b.last then Ticks(b, now - b.last) else b
  }

  function EagerAcquired(b: Bucket, q: Request): (Bucket, bool) {
    var b' := CatchUp(b, q.now);
    if b'.tokens >= q.want then (b'.(tokens := b'.tokens - q.want), true) else (b', false)
  }

  lemma {:induction false} TicksSum(b: Bucket, k: nat)
    requires b.Valid()
    ensures b.tokens + k * b.rate >= 0
    ensures Ticks(b, k) == b.(tokens := Min(b.capacity, b.tokens + k * b.rate), last := b.last + k)
  {
    if k > 0 {
      TicksSum(b, k - 1);
      assert k * b.rate == (k - 1) * b.rate + b.rate;
    }
  }

  /** What the wrapped sum needs for a refill to come out right. */
  predicate RefillFits(b: Bucket, now: int) {
    now > b.last ==>
      var full := b.tokens + (now - b.last) * b.rate;
      full < TWO64 || full % TWO64 >= b.capacity
  }

  lemma Inflow(k: nat, rate: nat) returns (inflow: nat)
    ensures inflow == k * rate == rate * k
  {
    inflow := k * rate;
  }

  lemma WrapOnce(x: nat, y: nat)
    ensures (x + y % TWO64) % TWO64 == (x + y) % TWO64
  {}

  lemma CapAfterWrap(full: nat, capacity: Word)
    ensures (if full % TWO64 > capacity then capacity else full % TWO64) == Min(capacity, full) <==>
            full < TWO64 || full % TWO64 >= capacity
  {}

  /** The tokens of a refill with the given inflow are the capped sum exactly when that sum fits. */
  lemma RefillSum(tokens: nat, inflow: nat, capacity: Word)
    ensures var sum := (tokens + inflow % TWO64) % TWO64;
            (if sum > capacity then capacity else sum) == Min(capacity, tokens + inflow) <==>
            tokens + inflow < TWO64 || (tokens + inflow) % TWO64 >= capacity
  {
    WrapOnce(tokens, inflow);
    CapAfterWrap(tokens + inflow, capacity);
  }

  /** A refill equals one tick per elapsed second exactly when the sum fits or wraps to at least the
      capacity. */
  lemma RefillIsTicksIff(b: Bucket, now: int)
    requires b.Valid()
    ensures Refilled(b, now) == CatchUp(b, now) <==> RefillFits(b, now)
    ensures Refilled(b, now).Valid() && Refilled(b, now).last == CatchUp(b, now).last == Max(b.last, now)
  {
    hide Ticks;
    if now > b.last {
      TicksSum(b, now - b.last);
      var inflow := Inflow(now - b.last, b.rate);
      RefillSum(b.tokens, inflow, b.capacity);
    }
  }

  /** The wrap-around is real: a full bucket of the largest capacity is empty a second later. */
  lemma FullBucketEmpties()
    ensures var b := Bucket(TWO64 - 1, 1, TWO64 - 1, 0);
            b.Valid() && Refilled(b, 1).tokens == 0 && CatchUp(b, 1).tokens == b.capacity
  {
    var b := Bucket(TWO64 - 1, 1, TWO64 - 1, 0);
    TicksSum(b, 1);
  }

  // ---- Request sequences ------------------------------------------------------------------------

  /** Bucket and answer after each request. */
  function Serve(b: Bucket, qs: seq<Request>): (r: seq<(Bucket, bool)>)
    ensures |r| == |qs|
    decreases |qs|
  {
    if qs == [] then []
    else
      var a := Acquired(b, qs[0]);
      [a] + Serve(a.0, qs[1..])
  }

  function EagerServe(b: Bucket, qs: seq<Request>): (r: seq<(Bucket, bool)>)
    ensures |r| == |qs|
    decreases |qs|
  {
    if qs == [] then []
    else
      var a := EagerAcquired(b, qs[0]);
      [a] + EagerServe(a.0, qs[1..])
  }

  /** Every refill of the eager run fits. */
  predicate AllFit(b: Bucket, qs: seq<Request>)
    decreases |qs|
  {
    qs == [] || (RefillFits(b, qs[0].now) && AllFit(EagerAcquired(b, qs[0]).0, qs[1..]))
  }

  lemma AcquireKeeps(b: Bucket, q: Request)
    requires b.Valid()
    ensures EagerAcquired(b, q).0.Valid() && EagerAcquired(b, q).0.last == Max(b.last, q.now)
    ensures Acquired(b, q).0.Valid() && Acquired(b, q).0.last == Max(b.last, q.now)
    ensures RefillFits(b, q.now) ==> Acquired(b, q) == EagerAcquired(b, q)
    ensures EagerAcquired(b, q).0.capacity == b.capacity && EagerAcquired(b, q).0.rate == b.rate
  {
    RefillIsTicksIff(b, q.now);
    if q.now > b.last { TicksSum(b, q.now - b.last); }
  }

  /** A refill that does not fit shows in the bucket, whatever the request. */
  lemma MisfitShows(b: Bucket, q: Request)
    requires b.Valid()
    ensures Acquired(b, q) == EagerAcquired(b, q) <==> RefillFits(b, q.now)
  {
    RefillIsTicksIff(b, q.now);
    SameButTokens(b, q.now);
    hide Refilled, CatchUp, RefillFits;
  }

  lemma SameButTokens(b: Bucket, now: int)
    requires b.Valid()
    ensures Refilled(b, now) == CatchUp(b, now).(tokens := Refilled(b, now).tokens)
  {
    if now > b.last { TicksSum(b, now - b.last); }
  }

  /** The lazy limiter gives the eager one's answers and levels on a request sequence exactly when all its
      refills fit, whatever the clock does. */
  lemma {:induction false} LazyIsEager(b: Bucket, qs: seq<Request>)
    requires b.Valid()
    ensures Serve(b, qs) == EagerServe(b, qs) <==> AllFit(b, qs)
    decreases |qs|
  {
    if qs != [] {
      AcquireKeeps(b, qs[0]);
      MisfitShows(b, qs[0]);
      hide Acquired, EagerAcquired, RefillFits;
      var a, e := Acquired(b, qs[0]), EagerAcquired(b, qs[0]);
      assert Serve(b, qs)[0] == a && Serve(b, qs)[1..] == Serve(a.0, qs[1..]);
      assert EagerServe(b, qs)[0] == e && EagerServe(b, qs)[1..] == EagerServe(e.0, qs[1..]);
      LazyIsEager(e.0, qs[1..]);
    }
  }

  lemma MulMonotone(a: int, b: int, c: nat)
    requires a <= b
    ensures a * c <= b * c
  {}

  /** A bound a caller can check once: the capacity plus everything that could ever flow in fits. */
  lemma {:induction false} FitsUntil(b: Bucket, qs: seq<Request>, end: int)
    requires b.Valid() && b.last <= end && forall q :: q in qs ==> q.now <= end
    requires b.capacity + (end - b.last) * b.rate < TWO64
    ensures AllFit(b, qs)
    decreases |qs|
  {
    if qs != [] {
      var q := qs[0];
      assert q in qs;
      AcquireKeeps(b, q);
      var b' := EagerAcquired(b, q).0;
      MulMonotone(end - b'.last, end - b.last, b.rate);
      if q.now > b.last { MulMonotone(q.now - b.last, end - b.last, b.rate); }
      assert forall x :: x in qs[1..] ==> x in qs;
      FitsUntil(b', qs[1..], end);
    }
  }

  // ---- The level as a minimum over windows ---------------------------------------------------------

  datatype Grant = Grant(time: int, amount: nat)

  /** Tokens granted at or after second s. */
  function GrantedSince(h: seq<Grant>, s: int): nat {
    if h == [] then 0
    else GrantedSince(h[..|h| - 1], s) + if h[|h| - 1].time >= s then h[|h| - 1].amount else 0
  }

  /** What a window from s to now may still grant. */
  function Room(b: Bucket, h: seq<Grant>, s: int): int {
    b.capacity + b.rate * (b.last - s) - GrantedSince(h, s)
  }

  /** The level is at most the room of any window that starts between the creation and now. */
  ghost predicate Covered(b: Bucket, born: int, h: seq<Grant>) {
    && born <= b.last && (forall g :: g in h ==> g.time <= b.last)
    && (forall s {:trigger Room(b, h, s)} :: born <= s <= b.last ==> b.tokens <= Room(b, h, s))
  }

  /** And it is the least such room. */
  ghost predicate Level(b: Bucket, born: int, h: seq<Grant>) {
    && Covered(b, born, h)
    && (exists s {:trigger Room(b, h, s)} :: born <= s <= b.last && b.tokens == Room(b, h, s))
  }

  lemma NewLevel(b: Bucket)
    requires b.tokens == b.capacity
    ensures Level(b, b.last, [])
  {
    assert b.rate * 0 == 0;
    assert b.tokens == Room(b, [], b.last);
  }

  lemma {:induction false} NothingSince(h: seq<Grant>, s: int)
    requires forall g :: g in h ==> g.time < s
    ensures GrantedSince(h, s) == 0
  {
    if h != [] {
      assert h[|h| - 1] in h;
      assert forall g :: g in h[..|h| - 1] ==> g in h;
      NothingSince(h[..|h| - 1], s);
    }
  }

  lemma Later(rate: nat, t: int, t': int, s: int)
    ensures rate * (t' - s) == rate * (t - s) + rate * (t' - t)
  {}

  /** How a window's room grows while nothing is granted. */
  lemma RoomLater(b: Bucket, b': Bucket, h: seq<Grant>, s: int)
    requires b'.capacity == b.capacity && b'.rate == b.rate && b.last <= b'.last && s <= b'.last
    requires forall g :: g in h ==> g.time <= b.last
    ensures s <= b.last ==> Room(b', h, s) == Room(b, h, s) + b.rate * (b'.last - b.last)
    ensures s > b.last ==> Room(b', h, s) >= b.capacity
    ensures s == b'.last > b.last ==> Room(b', h, s) == b.capacity
  {
    if s <= b.last {
      Later(b.rate, b.last, b'.last, s);
    } else {
      NothingSince(h, s);
      MulMonotone(0, b'.last - s, b.rate);
    }
  }

  /** Tokens that do not outgrow the inflow stay covered. */
  lemma CoveredLater(b: Bucket, b': Bucket, born: int, h: seq<Grant>)
    requires Covered(b, born, h) && b' == b.(tokens := b'.tokens, last := b'.last) && b.last <= b'.last
    requires b'.tokens <= Min(b.capacity, b.tokens + b.rate * (b'.last - b.last))
    ensures Covered(b', born, h)
  {
    forall s | born <= s <= b'.last
      ensures b'.tokens <= Room(b', h, s)
    {
      RoomLater(b, b', h, s);
      if s <= b.last { assert b.tokens <= Room(b, h, s); }
    }
  }

  /** A refill never adds more than what flowed in: wrapping only loses tokens. */
  lemma RefillAtMost(b: Bucket, now: int)
    requires b.Valid()
    ensures var b' := Refilled(b, now);
            && b' == b.(tokens := b'.tokens, last := b'.last) && b.last <= b'.last && b'.Valid()
            && b'.tokens <= Min(b.capacity, b.tokens + b.rate * (b'.last - b.last))
  {
    if now > b.last {
      var inflow := Inflow(now - b.last, b.rate);
      RefillSumAtMost(b.tokens, inflow, b.capacity);
    }
  }

  lemma RefillSumAtMost(tokens: nat, inflow: nat, capacity: Word)
    ensures var sum := (tokens + inflow % TWO64) % TWO64;
            (if sum > capacity then capacity else sum) <= Min(capacity, tokens + inflow)
  {
    WrapLoses(tokens, inflow);
  }

  lemma WrapLoses(x: nat, y: nat)
    ensures (x + y % TWO64) % TWO64 <= x + y
  {
    WrapOnce(x, y);
  }

  /** Catching up keeps the level exact. */
  lemma LevelCatchUp(b: Bucket, born: int, h: seq<Grant>, now: int)
    requires b.Valid() && Level(b, born, h)
    ensures Level(CatchUp(b, now), born, h)
  {
    if now > b.last {
      TicksSum(b, now - b.last);
      var b' := CatchUp(b, now);
      var inflow := (now - b.last) * b.rate;
      assert b'.tokens == Min(b.capacity, b.tokens + inflow);
      assert inflow == b.rate * (b'.last - b.last);
      hide Covered;
      CoveredLater(b, b', born, h);
      LeastRoom(b, b', born, h, inflow);
    }
  }

  lemma LeastRoom(b: Bucket, b': Bucket, born: int, h: seq<Grant>, inflow: nat)
    requires Level(b, born, h) && b.last < b'.last && b' == b.(tokens := b'.tokens, last := b'.last)
    requires inflow == b.rate * (b'.last - b.last) && b'.tokens == Min(b.capacity, b.tokens + inflow)
    ensures exists s {:trigger Room(b', h, s)} :: born <= s <= b'.last && b'.tokens == Room(b', h, s)
  {
    if b'.tokens == b.capacity {
      RoomLater(b, b', h, b'.last);
      assert b'.tokens == Room(b', h, b'.last);
    } else {
      var s :| born <= s <= b.last && b.tokens == Room(b, h, s);
      RoomLater(b, b', h, s);
      assert b'.tokens == Room(b', h, s);
    }
  }

  /** Granting at the current second takes the amount from every window's room. */
  lemma RoomGrant(b: Bucket, h: seq<Grant>, n: nat, s: int)
    requires n <= b.tokens && s <= b.last
    ensures Room(b.(tokens := b.tokens - n), h + [Grant(b.last, n)], s) == Room(b, h, s) - n
  {
    assert (h + [Grant(b.last, n)])[..|h|] == h;
  }

  lemma CoveredGrant(b: Bucket, born: int, h: seq<Grant>, n: nat)
    requires Covered(b, born, h) && n <= b.tokens
    ensures Covered(b.(tokens := b.tokens - n), born, h + [Grant(b.last, n)])
  {
    var b' := b.(tokens := b.tokens - n);
    forall s | born <= s <= b.last
      ensures b'.tokens <= Room(b', h + [Grant(b.last, n)], s)
    {
      RoomGrant(b, h, n, s);
      assert b.tokens <= Room(b, h, s);
    }
  }

  lemma LevelGrant(b: Bucket, born: int, h: seq<Grant>, n: nat)
    requires Level(b, born, h) && n <= b.tokens
    ensures Level(b.(tokens := b.tokens - n), born, h + [Grant(b.last, n)])
  {
    hide Covered;
    CoveredGrant(b, born, h, n);
    var s :| born <= s <= b.last && b.tokens == Room(b, h, s);
    RoomGrant(b, h, n, s);
    assert b.(tokens := b.tokens - n).tokens == Room(b.(tokens := b.tokens - n), h + [Grant(b.last, n)], s);
  }

  /** Granting n now would exceed the capacity plus the refill over some window. */
  ghost predicate SomeWindowFull(b: Bucket, born: int, h: seq<Grant>, n: nat) {
    exists s :: born <= s <= b.last && GrantedSince(h, s) + n > b.capacity + b.rate * (b.last - s)
  }

  /** A request fits the level exactly when no window would grant more than the capacity plus the
      refill over its length. */
  lemma RefusedIffSomeWindowFull(b: Bucket, born: int, h: seq<Grant>, n: nat)
    requires Level(b, born, h)
    ensures b.tokens < n <==> SomeWindowFull(b, born, h, n)
  {
    var s :| born <= s <= b.last && b.tokens == Room(b, h, s);
    if b.tokens < n {
      assert GrantedSince(h, s) + n > b.capacity + b.rate * (b.last - s);
    } else {
      forall r | born <= r <= b.last
        ensures GrantedSince(h, r) + n <= b.capacity + b.rate * (b.last - r)
      {
        assert b.tokens <= Room(b, h, r);
      }
    }
  }

  /** The grants of a request sequence, at the limiter's own second. */
  function Grants(b: Bucket, qs: seq<Request>): seq<Grant>
    decreases |qs|
  {
    if qs == [] then []
    else
      var (b', ok) := Acquired(b, qs[0]);
      (if ok then [Grant(b'.last, qs[0].want)] else []) + Grants(b', qs[1..])
  }

  function After(b: Bucket, qs: seq<Request>): Bucket
    decreases |qs|
  {
    if qs == [] then b else After(Acquired(b, qs[0]).0, qs[1..])
  }

  lemma {:induction false} LevelAlong(b: Bucket, born: int, h: seq<Grant>, qs: seq<Request>)
    requires b.Valid() && Level(b, born, h) && AllFit(b, qs)
    ensures After(b, qs).Valid() && Level(After(b, qs), born, h + Grants(b, qs))
    ensures After(b, qs).capacity == b.capacity && After(b, qs).rate == b.rate
    decreases |qs|
  {
    hide Level, Refilled, CatchUp, RefillFits;
    if qs == [] {
      assert h + [] == h;
    } else {
      var q := qs[0];
      AcquireKeeps(b, q);
      RefillIsTicksIff(b, q.now);
      LevelCatchUp(b, born, h, q.now);
      var (b', ok) := Acquired(b, q);
      if ok { LevelGrant(CatchUp(b, q.now), born, h, q.want); }
      var h' := h + if ok then [Grant(b'.last, q.want)] else [];
      assert h' == if ok then h + [Grant(b'.last, q.want)] else h;
      LevelAlong(b', born, h', qs[1..]);
      assert h' + Grants(b', qs[1..]) == h + Grants(b, qs);
    }
  }

  function GrantedWithin(h: seq<Grant>, s: int, e: int): nat {
    if h == [] then 0
    else GrantedWithin(h[..|h| - 1], s, e) + if s <= h[|h| - 1].time <= e then h[|h| - 1].amount else 0
  }

  /** From a fresh limiter, through any request sequence whose refills fit: the level is the exact
      minimum over all windows. */
  lemma ExactLevel(capacity: Word, rate: Word, born: int, qs: seq<Request>, now: int)
    requires AllFit(Bucket(capacity, rate, capacity, born), qs + [Request(now, 0)])
    ensures var b := Bucket(capacity, rate, capacity, born);
            Level(Refilled(After(b, qs), now), born, Grants(b, qs))
  {
    var b := Bucket(capacity, rate, capacity, born);
    NewLevel(b);
    FitPrefix(b, qs, Request(now, 0));
    LevelAlong(b, born, [], qs);
    assert [] + Grants(b, qs) == Grants(b, qs);
    LevelCatchUp(After(b, qs), born, Grants(b, qs), now);
    RefillIsTicksIff(After(b, qs), now);
  }

  lemma {:induction false} FitPrefix(b: Bucket, qs: seq<Request>, q: Request)
    requires b.Valid() && AllFit(b, qs + [q])
    ensures AllFit(b, qs) && RefillFits(After(b, qs), q.now)
    decreases |qs|
  {
    if qs == [] {
      assert qs + [q] == [q];
    } else {
      assert (qs + [q])[1..] == qs[1..] + [q];
      AcquireKeeps(b, qs[0]);
      FitPrefix(Acquired(b, qs[0]).0, qs[1..], q);
    }
  }

  // ---- No window grants more than capacity plus refill ------------------------------------------------

  /** Every window within the history respects the bound. */
  ghost predicate WindowsBounded(capacity: nat, rate: nat, born: int, h: seq<Grant>) {
    forall s, e {:trigger GrantedWithin(h, s, e)} :: born <= s <= e ==> GrantedWithin(h, s, e) <= capacity + rate * (e - s)
  }

  lemma {:induction false} WithinIsSince(h: seq<Grant>, s: int, e: int)
    requires forall g :: g in h ==> g.time <= e
    ensures GrantedWithin(h, s, e) == GrantedSince(h, s)
  {
    if h != [] {
      assert h[|h| - 1] in h;
      assert forall g :: g in h[..|h| - 1] ==> g in h;
      WithinIsSince(h[..|h| - 1], s, e);
    }
  }

  /** One more grant keeps every window bounded. */
  lemma BoundedGrant(b: Bucket, born: int, h: seq<Grant>, n: nat)
    requires Covered(b, born, h) && n <= b.tokens && WindowsBounded(b.capacity, b.rate, born, h)
    ensures WindowsBounded(b.capacity, b.rate, born, h + [Grant(b.last, n)])
  {
    hide GrantedSince, GrantedWithin, Covered;
    forall s, e | born <= s <= e
      ensures GrantedWithin(h + [Grant(b.last, n)], s, e) <= b.capacity + b.rate * (e - s)
    {
      assert GrantedWithin(h, s, e) <= b.capacity + b.rate * (e - s);
      GrantedSnoc(h, Grant(b.last, n), s, e);
      if s <= b.last <= e { GrantFits(b, born, h, n, s, e); }
    }
  }

  lemma GrantedSnoc(h: seq<Grant>, g: Grant, s: int, e: int)
    ensures GrantedWithin(h + [g], s, e) == GrantedWithin(h, s, e) + if s <= g.time <= e then g.amount else 0
  {
    assert (h + [g])[..|h|] == h;
  }

  lemma GrantFits(b: Bucket, born: int, h: seq<Grant>, n: nat, s: int, e: int)
    requires Covered(b, born, h) && n <= b.tokens && born <= s <= b.last <= e
    ensures GrantedWithin(h, s, e) + n <= b.capacity + b.rate * (e - s)
  {
    hide GrantedSince, GrantedWithin;
    assert b.tokens <= Room(b, h, s);
    WithinIsSince(h, s, e);
    MulMonotone(b.last - s, e - s, b.rate);
  }

  lemma {:induction false} BoundedAlong(b: Bucket, born: int, h: seq<Grant>, qs: seq<Request>)
    requires b.Valid() && Covered(b, born, h) && WindowsBounded(b.capacity, b.rate, born, h)
    ensures WindowsBounded(b.capacity, b.rate, born, h + Grants(b, qs))
    decreases |qs|
  {
    hide Covered, WindowsBounded, Refilled;
    if qs == [] {
      assert h + [] == h;
    } else {
      var q := qs[0];
      RefillAtMost(b, q.now);
      var full := Refilled(b, q.now);
      CoveredLater(b, full, born, h);
      var (b', ok) := Acquired(b, q);
      if ok {
        CoveredGrant(full, born, h, q.want);
        BoundedGrant(full, born, h, q.want);
      }
      var h' := h + if ok then [Grant(b'.last, q.want)] else [];
      assert h' == if ok then h + [Grant(b'.last, q.want)] else h;
      BoundedAlong(b', born, h', qs[1..]);
      assert h' + Grants(b', qs[1..]) == h + Grants(b, qs);
    }
  }

  /** In every window of every run, whatever the sums do, the limiter grants at most its capacity plus the
      rate times the window's length. */
  lemma WindowBound(capacity: Word, rate: Word, born: int, qs: seq<Request>, s: int, e: int)
    requires born <= s <= e
    ensures GrantedWithin(Grants(Bucket(capacity, rate, capacity, born), qs), s, e) <= capacity + rate * (e - s)
  {
    var b := Bucket(capacity, rate, capacity, born);
    NewLevel(b);
    forall x, y | born <= x <= y
      ensures GrantedWithin([], x, y) <= capacity + rate * (y - x)
    {
      MulMonotone(0, y - x, rate);
    }
    BoundedAlong(b, born, [], qs);
    assert [] + Grants(b, qs) == Grants(b, qs);
  }

  // ---- Waiting ----------------------------------------------------------------------------------------

  /** Attempts up to and including the first one made at or past the timeout, 100 ms apart. */
  function LastAttempt(timeout: int): nat {
    if timeout <= 0 then 0 else (timeout + 99) / 100
  }

  datatype WaitEnd = WaitEnd(bucket: Bucket, attempt: nat, granted: bool)

  /** rate_limiter_wait from attempt k on; attempt i reads the clock as clock(i). */
  function WaitFrom(b: Bucket, want: Word, timeout: int, clock: nat -> int, k: nat): (r: WaitEnd)
    decreases timeout - 100 * k
  {
    var (b', ok) := Acquired(b, Request(clock(k), want));
    if ok then WaitEnd(b', k, true)
    else if 100 * k >= timeout then WaitEnd(b', k, false)
    else WaitFrom(b', want, timeout, clock, k + 1)
  }

  /** The level an eagerly refilled bucket that nobody draws from shows at second t. */
  function LevelAt(b: Bucket, t: int): int {
    Min(b.capacity, b.tokens + (t - b.last) * b.rate)
  }

  lemma LevelAtLater(b: Bucket, t1: int, t2: int)
    requires b.Valid() && b.last <= t1 <= t2
    ensures CatchUp(b, t1).Valid() && CatchUp(b, t1).last == t1 && CatchUp(b, t1).tokens == LevelAt(b, t1)
    ensures CatchUp(b, t1).capacity == b.capacity && CatchUp(b, t1).rate == b.rate
    ensures LevelAt(CatchUp(b, t1), t2) == LevelAt(b, t2) && LevelAt(b, t1) <= LevelAt(b, t2)
  {
    hide Ticks;
    if t1 > b.last { TicksSum(b, t1 - b.last); }
    assert (t1 - b.last) * b.rate + (t2 - t1) * b.rate == (t2 - b.last) * b.rate;
    MulMonotone(0, t2 - t1, b.rate);
    MulMonotone(0, t1 - b.last, b.rate);
  }

  /** The latest second seen by attempts k to i, or start. */
  function Latest(start: int, clock: nat -> int, k: nat, i: nat): (r: int)
    requires k <= i
    ensures r >= start && r >= clock(i)
  {
    Max(if i == k then start else Latest(start, clock, k, i - 1), clock(i))
  }

  lemma {:induction false} LatestFrom(start: int, clock: nat -> int, k: nat, i: nat)
    requires k < i
    ensures Latest(Max(start, clock(k)), clock, k + 1, i) == Latest(start, clock, k, i)
  {
    if i > k + 1 {
      LatestFrom(start, clock, k, i - 1);
    } else {
      assert Latest(start, clock, k, k) == Max(start, clock(k));
    }
  }

  lemma {:induction false} LatestGrows(start: int, clock: nat -> int, k: nat, i: nat, j: nat)
    requires k <= i <= j
    ensures Latest(start, clock, k, i) <= Latest(start, clock, k, j)
    decreases j
  {
    if i < j { LatestGrows(start, clock, k, i, j - 1); }
  }

  /** The requests that a wait makes of the eager bucket from attempt k on. */
  function Attempts(b: Bucket, want: Word, timeout: int, clock: nat -> int, k: nat): (r: seq<Request>)
    ensures r != [] && r[0] == Request(clock(k), want)
    decreases timeout - 100 * k
  {
    var q := Request(clock(k), want);
    var (b', ok) := EagerAcquired(b, q);
    if ok || 100 * k >= timeout then [q] else [q] + Attempts(b', want, timeout, clock, k + 1)
  }

  lemma FirstAttempt(b: Bucket, want: Word, timeout: int, clock: nat -> int, k: nat)
    requires b.Valid() && AllFit(b, Attempts(b, want, timeout, clock, k))
    ensures var t := Max(b.last, clock(k));
            var (b', ok) := Acquired(b, Request(clock(k), want));
            && (b', ok) == EagerAcquired(b, Request(clock(k), want))
            && (ok <==> LevelAt(b, t) >= want)
            && (!ok ==> b' == CatchUp(b, t) && b'.Valid())
            && (!ok && 100 * k < timeout ==> AllFit(b', Attempts(b', want, timeout, clock, k + 1)))
  {
    hide Ticks, Refilled, RefillFits;
    var q := Request(clock(k), want);
    AcquireKeeps(b, q);
    RefillIsTicksIff(b, clock(k));
    LevelAtLater(b, Max(b.last, clock(k)), Max(b.last, clock(k)));
    var (b', ok) := EagerAcquired(b, q);
    if !ok && 100 * k < timeout {
      var rest := Attempts(b', want, timeout, clock, k + 1);
      assert Attempts(b, want, timeout, clock, k) == [q] + rest && ([q] + rest)[1..] == rest;
    }
  }

  /** Waiting ends at the first attempt at which an undisturbed bucket holds enough, or, when no attempt
      within the timeout does, refused at the last one. All it takes is that the refills made on the way
      fit; the clock may do what it likes. */
  lemma {:induction false} WaitMeans(b: Bucket, want: Word, timeout: int, clock: nat -> int, k: nat)
    requires b.Valid() && k <= LastAttempt(timeout) && AllFit(b, Attempts(b, want, timeout, clock, k))
    ensures var r := WaitFrom(b, want, timeout, clock, k);
            && k <= r.attempt <= LastAttempt(timeout)
            && (forall i: nat {:trigger Latest(b.last, clock, k, i)} :: k <= i < r.attempt ==> LevelAt(b, Latest(b.last, clock, k, i)) < want)
            && (r.granted <==> LevelAt(b, Latest(b.last, clock, k, r.attempt)) >= want)
            && (!r.granted ==> r.attempt == LastAttempt(timeout))
    decreases LastAttempt(timeout) - k
  {
    hide LevelAt, Acquired, EagerAcquired, CatchUp, AllFit, Attempts;
    var t := Max(b.last, clock(k));
    FirstAttempt(b, want, timeout, clock, k);
    assert Latest(b.last, clock, k, k) == t;
    var (b', ok) := Acquired(b, Request(clock(k), want));
    if !ok && 100 * k < timeout {
      LevelAtLater(b, t, t);
      WaitMeans(b', want, timeout, clock, k + 1);
      forall i: nat | k < i
        ensures LevelAt(b', Latest(t, clock, k + 1, i)) == LevelAt(b, Latest(b.last, clock, k, i))
      {
        LatestFrom(b.last, clock, k, i);
        LevelAtLater(b, t, Latest(t, clock, k + 1, i));
      }
    }
  }

  /** So a wait succeeds exactly when the level would suffice at the last attempt. */
  lemma WaitSucceedsIff(b: Bucket, want: Word, timeout: int, clock: nat -> int)
    requires b.Valid() && AllFit(b, Attempts(b, want, timeout, clock, 0))
    ensures WaitFrom(b, want, timeout, clock, 0).granted <==>
            LevelAt(b, Latest(b.last, clock, 0, LastAttempt(timeout))) >= want
  {
    hide LevelAt, AllFit, Attempts, CatchUp;
    WaitMeans(b, want, timeout, clock, 0);
    var r, last := WaitFrom(b, want, timeout, clock, 0), LastAttempt(timeout);
    LatestGrows(b.last, clock, 0, r.attempt, last);
    LevelAtLater(b, Latest(b.last, clock, 0, r.attempt), Latest(b.last, clock, 0, last));
  }

  lemma {:induction false} AttemptsInTime(b: Bucket, want: Word, timeout: int, clock: nat -> int, k: nat, end: int)
    requires k <= LastAttempt(timeout) && forall i: nat :: i <= LastAttempt(timeout) ==> clock(i) <= end
    ensures forall q :: q in Attempts(b, want, timeout, clock, k) ==> q.now <= end
    decreases LastAttempt(timeout) - k
  {
    var (b', ok) := EagerAcquired(b, Request(clock(k), want));
    if !ok && 100 * k < timeout { AttemptsInTime(b', want, timeout, clock, k + 1, end); }
  }

  /** The refills of a wait fit if capacity and inflow up to its latest second do. */
  lemma WaitFits(b: Bucket, want: Word, timeout: int, clock: nat -> int, end: int)
    requires b.Valid() && b.last <= end && forall i: nat :: i <= LastAttempt(timeout) ==> clock(i) <= end
    requires b.capacity + (end - b.last) * b.rate < TWO64
    ensures AllFit(b, Attempts(b, want, timeout, clock, 0))
  {
    AttemptsInTime(b, want, timeout, clock, 0, end);
    FitsUntil(b, Attempts(b, want, timeout, clock, 0), end);
  }

  // ---- The limiter object -------------------------------------------------------------------------------

  class Limiter {
    const capacity: Word
    const rate: Word
    var tokens: Word
    var last: int
    var enabled: bool
    /** Creation time, grants so far, and whether every refill has fitted. */
    ghost const born: int
    ghost var grants: seq<Grant>
    ghost var fits: bool

    function Value(): Bucket
      reads this
    {
      Bucket(capacity, rate, tokens, last)
    }

    /** While refills fit, the level is the exact minimum over windows. */
    ghost predicate Valid()
      reads this
    {
      Value().Valid() && (fits ==> Level(Value(), born, grants))
    }

    /** rate_limiter_create */
    constructor (capacity: Word, rate: Word, now: int)
      ensures Valid() && enabled && fits && grants == []
      ensures Value() == Bucket(capacity, rate, capacity, now) && born == now
    {
      this.capacity, this.rate, tokens, last, enabled := capacity, rate, capacity, now, true;
      born, grants, fits := now, [], true;
      new;
      NewLevel(Value());
    }

    /** rate_limiter_refill */
    method Refill(now: int)
      requires Valid()
      modifies this
      ensures Valid() && Value() == Refilled(old(Value()), now)
      ensures enabled == old(enabled) && grants == old(grants)
      ensures fits <==> old(fits) && RefillFits(old(Value()), now)
    {
      ghost var b := Value();
      var elapsed := now - last;
      fits := fits && RefillFits(b, now);
      if elapsed > 0 {
        var newTokens := elapsed * rate % TWO64;
        tokens := (tokens + newTokens) % TWO64;
        if tokens > capacity {
          tokens := capacity;
        }
        last := now;
      }
      RefillIsTicksIff(b, now);
      if fits { LevelCatchUp(b, born, grants, now); }
    }

    /** rate_limiter_acquire: 0 when granted or disabled, -1 when refused; a refusal means that some
        window would grant too much. */
    method Acquire(now: int, want: Word) returns (r: int)
      requires Valid()
      modifies this
      ensures Valid() && enabled == old(enabled)
      ensures !enabled ==> r == 0 && Value() == old(Value()) && grants == old(grants) && fits == old(fits)
      ensures enabled ==>
                && (fits <==> old(fits) && RefillFits(old(Value()), now))
                && (Value(), r == 0) == Acquired(old(Value()), Request(now, want))
                && r in {0, -1}
                && grants == old(grants) + if r == 0 then [Grant(last, want)] else []
      ensures enabled && fits ==>
                (r == -1 <==> SomeWindowFull(Refilled(old(Value()), now), born, old(grants), want))
    {
      if !enabled {
        return 0;
      }
      Refill(now);
      ghost var full := Value();
      if fits { RefusedIffSomeWindowFull(full, born, grants, want); }
      if tokens >= want {
        if fits { LevelGrant(full, born, grants, want); }
        tokens := tokens - want;
        grants := grants + [Grant(last, want)];
        return 0;
      }
      assert grants + [] == grants;
      return -1;
    }

    /** rate_limiter_wait: tries again every 100 ms; `waited` never reaches the timeout plus 100, and
        for timeouts up to 2147483600 it stays within a 32-bit int. */
    method Wait(want: Word, timeout: int, clock: nat -> int) returns (r: int, waited: int)
      requires Valid()
      modifies this
      ensures Valid() && enabled == old(enabled)
      ensures !enabled ==> r == 0 && waited == 0 && Value() == old(Value())
      ensures enabled ==>
                var e := WaitFrom(old(Value()), want, timeout, clock, 0);
                Value() == e.bucket && waited == 100 * e.attempt && r == (if e.granted then 0 else -1)
      ensures waited == 0 || 0 < waited < timeout + 100
      ensures timeout <= 2147483600 ==> waited <= 2147483600
    {
      hide Level, RefillFits, SomeWindowFull, Acquired, Refilled;
      waited := 0;
      if !enabled {
        return 0, waited;
      }
      ghost var goal := WaitFrom(Value(), want, timeout, clock, 0);
      ghost var k := 0;
      r := Acquire(clock(0), want);
      while r != 0
        invariant Valid() && enabled
        invariant waited == 100 * k && (k == 0 || 100 * (k - 1) < timeout)
        invariant r in {0, -1}
        invariant goal == if r == 0 then WaitEnd(Value(), k, true)
                          else if waited >= timeout then WaitEnd(Value(), k, false)
                          else WaitFrom(Value(), want, timeout, clock, k + 1)
        decreases timeout - waited, r != 0
      {
        if waited >= timeout {
          return -1, waited;
        }
        waited := waited + 100;
        k := k + 1;
        r := Acquire(clock(waited / 100), want);
      }
    }
  }
}
