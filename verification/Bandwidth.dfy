// bandwidth.py: the token-bucket pacer, over real numbers.

module Bandwidth {

  // One throttle call as the pacer sees it: the rate in force, the bytes asked
  // for, the clock on entry, and the clock after the sleep if there is one.
  datatype Call = Call(rate: real, bytes: nat, now: real, woke: real)

  datatype Bucket = Bucket(allowance: real, last: real)

  function Min(a: real, b: real): real {
    if a <= b then a else b
  }

  function Max(a: real, b: real): real {
    if a >= b then a else b
  }

  // The allowance after the refill for the time since the last call.
  function Refilled(b: Bucket, c: Call): real {
    Min(c.rate, b.allowance + (c.now - b.last) * c.rate)
  }

  function Throttled(b: Bucket, c: Call): Bucket {
    if Refilled(b, c) >= c.bytes as real then Bucket(Refilled(b, c) - c.bytes as real, c.now)
    else Bucket(0.0, c.woke)
  }

  // The call slept long enough for the shortfall to refill, if there was one.
  predicate Slept(b: Bucket, c: Call) {
    Refilled(b, c) < c.bytes as real ==> c.bytes as real - Refilled(b, c) <= c.rate * (c.woke - c.now)
  }

  // How long the call asks to sleep.
  function Waited(b: Bucket, c: Call): real
    requires c.rate > 0.0
  {
    if Refilled(b, c) >= c.bytes as real then 0.0 else (c.bytes as real - Refilled(b, c)) / c.rate
  }

  // Sleeping that long is what `Slept` means.
  lemma WaitingSuffices(b: Bucket, c: Call)
    requires c.rate > 0.0 && c.woke - c.now >= Waited(b, c)
    ensures Slept(b, c)
  {
    if Refilled(b, c) < c.bytes as real {
      var short := c.bytes as real - Refilled(b, c);
      Divides(short, c.rate);
      Scales(short / c.rate, c.woke - c.now, c.rate);
    }
  }

  lemma Divides(x: real, r: real)
    requires r > 0.0
    ensures x / r * r == x
  {
  }

  lemma Scales(x: real, y: real, r: real)
    requires x <= y && r >= 0.0
    ensures x * r <= y * r
  {
  }

  class BandwidthLimiter {
    const activeRate: real
    const idleRate: real
    var allowance: real
    var last: real

    ghost predicate Valid()
      reads this
    {
      activeRate > 0.0 && idleRate > 0.0 && allowance >= 0.0
    }

    constructor (activeRate: real, idleRate: real, now: real)
      requires activeRate > 0.0 && idleRate > 0.0
      ensures Valid()
      ensures this.activeRate == activeRate && this.idleRate == idleRate
      ensures allowance == Max(activeRate, idleRate) && last == now
      ensures allowance >= activeRate && allowance >= idleRate && (allowance == activeRate || allowance == idleRate)
    {
      this.activeRate := activeRate;
      this.idleRate := idleRate;
      allowance := Max(activeRate, idleRate);
      last := now;
    }

    // The source refuses a rate that is not positive.
    static method Create(activeRate: real, idleRate: real, now: real) returns (limiter: BandwidthLimiter?)
      ensures limiter == null <==> activeRate <= 0.0 || idleRate <= 0.0
      ensures limiter != null ==> limiter.Valid() && limiter.allowance == Max(activeRate, idleRate)
    {
      if activeRate <= 0.0 || idleRate <= 0.0 {
        return null;
      }
      limiter := new BandwidthLimiter(activeRate, idleRate, now);
    }

    // `now` and `woke` are the readings of the injected clock.
    method Throttle(active: bool, bytes: nat, now: real, woke: real) returns (waited: real)
      requires Valid()
      modifies this
      ensures Valid()
      ensures var c := Call(if active then activeRate else idleRate, bytes, now, woke);
        var b := old(Bucket(allowance, last));
        Bucket(allowance, last) == Throttled(b, c) && waited == Waited(b, c)
    {
      var rate := if active then activeRate else idleRate;
      allowance := Min(rate, allowance + (now - last) * rate);
      last := now;
      if allowance >= bytes as real {
        allowance := allowance - bytes as real;
        return 0.0;
      }
      waited := (bytes as real - allowance) / rate;
      last := woke;
      allowance := 0.0;
    }
  }

  // ---- What a stretch of calls grants ----

  function Granted(calls: seq<Call>): int {
    if calls == [] then 0 else Granted(calls[..|calls| - 1]) + calls[|calls| - 1].bytes
  }

  // Consecutive calls and the bucket before and after each; every sleep lasted
  // at least as long as asked.
  ghost predicate IsStretch(calls: seq<Call>, bs: seq<Bucket>) {
    && |bs| == |calls| + 1
    && forall i :: 0 <= i < |calls| ==> Slept(bs[i], calls[i]) && bs[i + 1] == Throttled(bs[i], calls[i])
  }

  // What a call grants and leaves is covered, at rate r, by a full second's
  // allowance and the time it took ...
  ghost predicate PaysFromFull(r: real, c: Call, b': Bucket) {
    c.bytes as real + b'.allowance <= r * (1.0 + (b'.last - c.now))
  }

  // ... and by what the call before it left and the time since.
  ghost predicate PaysFrom(r: real, b: Bucket, c: Call, b': Bucket) {
    c.bytes as real + b'.allowance <= b.allowance + r * (b'.last - b.last)
  }

  lemma CallPays(b: Bucket, c: Call)
    requires Slept(b, c)
    ensures PaysFromFull(c.rate, c, Throttled(b, c))
    ensures PaysFrom(c.rate, b, c, Throttled(b, c))
  {
    var b' := Throttled(b, c);
    assert c.rate * (1.0 + (b'.last - c.now)) == c.rate + c.rate * (b'.last - c.now);
    assert c.rate * (b'.last - b.last) == c.rate * (c.now - b.last) + c.rate * (b'.last - c.now);
  }

  lemma {:induction false} StretchBound(r: real, calls: seq<Call>, bs: seq<Bucket>)
    requires calls != [] && |bs| == |calls| + 1
    requires PaysFromFull(r, calls[0], bs[1])
    requires forall i :: 0 < i < |calls| ==> PaysFrom(r, bs[i], calls[i], bs[i + 1])
    ensures Granted(calls) as real + bs[|calls|].allowance <= r * (1.0 + (bs[|calls|].last - calls[0].now))
  {
    var n := |calls| - 1;
    if n > 0 {
      StretchBound(r, calls[..n], bs[..n + 1]);
      assert PaysFrom(r, bs[n], calls[n], bs[n + 1]);
      assert r * (1.0 + (bs[n + 1].last - calls[0].now))
          == r * (1.0 + (bs[n].last - calls[0].now)) + r * (bs[n + 1].last - bs[n].last);
    } else {
      assert Granted(calls[..0]) == 0;
    }
  }

  // At one rate: at most R * (1 + elapsed) bytes, for any clock whatever.
  lemma SteadyRateBound(rate: real, calls: seq<Call>, bs: seq<Bucket>)
    requires calls != [] && IsStretch(calls, bs)
    requires forall i :: 0 <= i < |calls| ==> calls[i].rate == rate
    ensures Granted(calls) as real + bs[|calls|].allowance <= rate * (1.0 + (bs[|calls|].last - calls[0].now))
  {
    forall i | 0 <= i < |calls|
      ensures PaysFromFull(rate, calls[i], bs[i + 1]) && PaysFrom(rate, bs[i], calls[i], bs[i + 1])
    {
      CallPays(bs[i], calls[i]);
    }
    StretchBound(rate, calls, bs);
  }

  // A slower call on a clock that runs forward pays at the faster rate too.
  lemma PaysFromFullFaster(r: real, c: Call, b': Bucket)
    requires c.rate <= r && b'.last >= c.now && PaysFromFull(c.rate, c, b')
    ensures PaysFromFull(r, c, b')
  {
    Scales(c.rate, r, 1.0 + (b'.last - c.now));
  }

  lemma PaysFromFaster(r: real, b: Bucket, c: Call, b': Bucket)
    requires c.rate <= r && b'.last >= b.last && PaysFrom(c.rate, b, c, b')
    ensures PaysFrom(r, b, c, b')
  {
    Scales(c.rate, r, b'.last - b.last);
  }

  // Any mix of rates: at most maxRate * (1 + elapsed) bytes.
  lemma MixedRateBound(maxRate: real, calls: seq<Call>, bs: seq<Bucket>)
    requires calls != [] && IsStretch(calls, bs)
    requires forall i :: 0 <= i < |calls| ==> calls[i].rate <= maxRate && calls[i].now <= calls[i].woke
    requires forall i :: 0 < i < |calls| ==> bs[i].last <= calls[i].now
    ensures Granted(calls) as real + bs[|calls|].allowance <= maxRate * (1.0 + (bs[|calls|].last - calls[0].now))
  {
    forall i | 0 <= i < |calls|
      ensures PaysFromFull(maxRate, calls[i], bs[i + 1])
      ensures i > 0 ==> PaysFrom(maxRate, bs[i], calls[i], bs[i + 1])
    {
      CallPays(bs[i], calls[i]);
      PaysFromFullFaster(maxRate, calls[i], bs[i + 1]);
      if i > 0 {
        PaysFromFaster(maxRate, bs[i], calls[i], bs[i + 1]);
      }
    }
    StretchBound(maxRate, calls, bs);
  }

  // What a stretch has granted and left, and the bound on it.
  ghost predicate Within(maxRate: real, calls: seq<Call>, b: Bucket)
    requires calls != []
  {
    Granted(calls) as real + b.allowance <= maxRate * (1.0 + (b.last - calls[0].now))
  }

  ghost predicate AtBound(maxRate: real, calls: seq<Call>, b: Bucket)
    requires calls != []
  {
    Granted(calls) as real + b.allowance == maxRate * (1.0 + (b.last - calls[0].now))
  }

  // The mixed bound needs the monotonic clock: a stretch that has reached it,
  // extended by a slower call that neither sleeps nor fills the bucket, stays
  // within it exactly when the clock did not run backwards ...
  lemma SlowerCallStaysWithinExactly(maxRate: real, calls: seq<Call>, b: Bucket, c: Call)
    requires calls != [] && AtBound(maxRate, calls, b) && c.rate < maxRate
    requires c.bytes as real <= b.allowance + (c.now - b.last) * c.rate <= c.rate
    ensures Within(maxRate, calls + [c], Throttled(b, c)) <==> b.last <= c.now
  {
    GrantedAppends(calls, c);
    var d, e := c.now - b.last, 1.0 + (b.last - calls[0].now);
    Distributes(maxRate, e, d);
    assert 1.0 + (Throttled(b, c).last - calls[0].now) == e + d;
    ScalesExactly(c.rate, maxRate, d);
  }

  lemma Distributes(r: real, e: real, d: real)
    ensures r * (e + d) == r * e + r * d
  {
  }

  lemma ScalesExactly(x: real, y: real, d: real)
    requires x < y
    ensures x * d <= y * d <==> 0.0 <= d
  {
    assert y * d - x * d == (y - x) * d;
    if 0.0 <= d {
      assert (y - x) * d >= 0.0;
    } else {
      assert (y - x) * d < 0.0;
    }
  }

  // ... and two calls with a clock that goes back one second exceed the bound.
  lemma BackwardClockExceeds()
    ensures var calls := [Call(10.0, 5, 0.0, 0.0), Call(1.0, 0, -1.0, -1.0)];
      var bs := [Bucket(10.0, 0.0), Bucket(5.0, 0.0), Bucket(1.0, -1.0)];
      IsStretch(calls, bs) && Granted(calls) as real > 10.0 * (1.0 + (bs[2].last - calls[0].now))
  {
    var first, second := Call(10.0, 5, 0.0, 0.0), Call(1.0, 0, -1.0, -1.0);
    GrantedAppends([], first);
    GrantedAppends([first], second);
    assert [] + [first] == [first] && [first] + [second] == [first, second];
  }

  lemma GrantedAppends(calls: seq<Call>, c: Call)
    ensures Granted(calls + [c]) == Granted(calls) + c.bytes
  {
    assert (calls + [c])[..|calls|] == calls;
  }

  // ---- Nothing is withheld ----

  // The call found no more than the cap, and slept for exactly as long as asked.
  ghost predicate Exact(b: Bucket, c: Call) {
    && b.allowance + (c.now - b.last) * c.rate <= c.rate
    && (Refilled(b, c) < c.bytes as real ==> c.rate * (c.woke - c.now) == c.bytes as real - Refilled(b, c))
  }

  // What a call grants and leaves is what was left before and what the time
  // since is worth.
  ghost predicate Accounts(r: real, b: Bucket, c: Call, b': Bucket) {
    c.bytes as real + b'.allowance == b.allowance + r * (b'.last - b.last)
  }

  lemma CallAccounts(b: Bucket, c: Call)
    requires Exact(b, c)
    ensures Accounts(c.rate, b, c, Throttled(b, c))
  {
    var b' := Throttled(b, c);
    Distributes(c.rate, c.now - b.last, b'.last - c.now);
    assert (c.now - b.last) + (b'.last - c.now) == b'.last - b.last;
  }

  lemma {:induction false} StretchSums(r: real, calls: seq<Call>, bs: seq<Bucket>)
    requires |bs| == |calls| + 1
    requires forall i :: 0 <= i < |calls| ==> Accounts(r, bs[i], calls[i], bs[i + 1])
    ensures Granted(calls) as real + bs[|calls|].allowance == bs[0].allowance + r * (bs[|calls|].last - bs[0].last)
  {
    if calls != [] {
      var n := |calls| - 1;
      StretchSums(r, calls[..n], bs[..n + 1]);
      assert Accounts(r, bs[n], calls[n], bs[n + 1]);
      assert r * (bs[n + 1].last - bs[0].last) == r * (bs[n].last - bs[0].last) + r * (bs[n + 1].last - bs[n].last);
    }
  }

  // A stretch of such calls passes on every byte that time has earned.
  lemma StretchAccounts(rate: real, calls: seq<Call>, bs: seq<Bucket>)
    requires IsStretch(calls, bs)
    requires forall i :: 0 <= i < |calls| ==> calls[i].rate == rate && Exact(bs[i], calls[i])
    ensures Granted(calls) as real + bs[|calls|].allowance == bs[0].allowance + rate * (bs[|calls|].last - bs[0].last)
  {
    forall i | 0 <= i < |calls|
      ensures Accounts(rate, bs[i], calls[i], bs[i + 1])
    {
      CallAccounts(bs[i], calls[i]);
    }
    StretchSums(rate, calls, bs);
  }

  // A call waits only if the bucket does not cover it, and a refill that would
  // overflow leaves a full second's worth, less what is granted.
  lemma WaitsOnlyWhenShort(b: Bucket, c: Call)
    requires c.rate > 0.0
    ensures Waited(b, c) > 0.0 <==> Refilled(b, c) < c.bytes as real
    ensures Waited(b, c) * c.rate == if Refilled(b, c) < c.bytes as real then c.bytes as real - Refilled(b, c) else 0.0
    ensures b.allowance + (c.now - b.last) * c.rate >= c.rate >= c.bytes as real ==>
      Throttled(b, c) == Bucket(c.rate - c.bytes as real, c.now)
  {
    if Refilled(b, c) < c.bytes as real {
      Divides(c.bytes as real - Refilled(b, c), c.rate);
      Positive(c.bytes as real - Refilled(b, c), c.rate);
    }
  }

  lemma Positive(x: real, r: real)
    requires x > 0.0 && r > 0.0
    ensures x / r > 0.0
  {
  }

  // The bound is reached: a full bucket, more than a second's worth of bytes,
  // and a sleep of exactly the length asked.
  lemma BoundIsReached(b: Bucket, c: Call)
    requires Refilled(b, c) == c.rate < c.bytes as real
    requires c.rate * (c.woke - c.now) == c.bytes as real - c.rate
    ensures c.bytes as real == c.rate * (1.0 + (Throttled(b, c).last - c.now))
  {
    assert c.rate * (1.0 + (c.woke - c.now)) == c.rate + c.rate * (c.woke - c.now);
  }
}
