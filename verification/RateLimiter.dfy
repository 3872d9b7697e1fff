/**
 The credit limiter and the samplers that ask it, over real time in seconds.
 */
module RateLimiting {
  datatype Limiter = Limiter(creditsPerSecond: real, maxBalance: real, balance: real, lastTick: real)

  function Max(a: real, b: real): real {
    if a < b then b else a
  }

  function Min(a: real, b: real): real {
    if b < a then b else a
  }

  /** The limiter of a rate-limiting sampler: full when made, with room for one trace at least. */
  function NewLimiter(maxTracesPerSecond: real, now: real): Limiter {
    var room := Max(maxTracesPerSecond, 1.0);
    Limiter(maxTracesPerSecond, room, room, now)
  }

  function Refilled(l: Limiter, now: real): Limiter {
    l.(balance := Min(l.maxBalance, l.balance + (now - l.lastTick) * l.creditsPerSecond), lastTick := now)
  }

  function Granted(l: Limiter, now: real, cost: real): bool {
    Refilled(l, now).balance >= cost
  }

  function Checked(l: Limiter, now: real, cost: real): Limiter {
    var refilled := Refilled(l, now);
    if refilled.balance >= cost then refilled.(balance := refilled.balance - cost) else refilled
  }

  class RateLimiter {
    const creditsPerSecond: real
    const maxBalance: real
    var balance: real
    var lastTick: real

    function Now(): Limiter
      reads this
    {
      Limiter(creditsPerSecond, maxBalance, balance, lastTick)
    }

    constructor (creditsPerSecond: real, maxBalance: real, now: real)
      ensures Now() == Limiter(creditsPerSecond, maxBalance, maxBalance, now)
    {
      this.creditsPerSecond, this.maxBalance := creditsPerSecond, maxBalance;
      balance, lastTick := maxBalance, now;
    }

    method CheckCredit(now: real, itemCost: real) returns (granted: bool)
      modifies this
      ensures granted == Granted(old(Now()), now, itemCost)
      ensures Now() == Checked(old(Now()), now, itemCost)
    {
      var elapsedTime := now - lastTick;
      lastTick := now;
      balance := balance + elapsedTime * creditsPerSecond;
      if balance > maxBalance {
        balance := maxBalance;
      }
      if balance >= itemCost {
        balance := balance - itemCost;
        return true;
      }
      return false;
    }
  }

  // ---- Runs ----

  /** The limiter after asking for one credit at each of the times. */
  function After(l: Limiter, times: seq<real>): Limiter {
    if times == [] then l
    else Checked(After(l, times[..|times| - 1]), times[|times| - 1], 1.0)
  }

  function Grants(l: Limiter, times: seq<real>): nat {
    if times == [] then 0
    else
      var n := |times| - 1;
      Grants(l, times[..n]) + if Granted(After(l, times[..n]), times[n], 1.0) then 1 else 0
  }

  function End(l: Limiter, times: seq<real>): real {
    if times == [] then l.lastTick else times[|times| - 1]
  }

  /** Times that never go back, from the limiter's last tick on. */
  predicate Forward(l: Limiter, times: seq<real>) {
    if times == [] then true
    else
      var n := |times| - 1;
      Forward(l, times[..n]) && End(l, times[..n]) <= times[n]
  }

  /** Credit cannot go back in time, and a limiter in use never holds more than it has room for. */
  ghost predicate Sane(l: Limiter) {
    l.creditsPerSecond >= 0.0 && 1.0 <= l.maxBalance && 0.0 <= l.balance <= l.maxBalance
  }

  lemma NewLimiterIsSane(maxTracesPerSecond: real, now: real)
    requires maxTracesPerSecond >= 0.0
    ensures Sane(NewLimiter(maxTracesPerSecond, now))
    ensures NewLimiter(maxTracesPerSecond, now).balance >= 1.0
  {
  }

  function Earned(l: Limiter, time: real): real {
    (time - l.lastTick) * l.creditsPerSecond
  }

  lemma RefillEarns(l: Limiter, mid: Limiter, time: real)
    requires mid.creditsPerSecond == l.creditsPerSecond
    ensures Earned(mid, time) == Earned(l, time) - Earned(l, mid.lastTick)
  {
    assert time - mid.lastTick == (time - l.lastTick) - (mid.lastTick - l.lastTick);
  }

  lemma EarnsOnlyForward(l: Limiter, time: real)
    requires l.creditsPerSecond >= 0.0 && time >= l.lastTick
    ensures Earned(l, time) >= 0.0
  {
  }

  /** Credit spent and credit left never exceed the credit there was and the credit earned. */
  lemma {:induction false} CreditIsConserved(l: Limiter, times: seq<real>)
    requires Sane(l) && Forward(l, times)
    ensures var end := After(l, times);
            && Sane(end) && end.creditsPerSecond == l.creditsPerSecond && end.maxBalance == l.maxBalance
            && end.lastTick == End(l, times)
            && Grants(l, times) as real + end.balance <= l.balance + Earned(l, End(l, times))
  {
    if times != [] {
      var n := |times| - 1;
      var mid := After(l, times[..n]);
      CreditIsConserved(l, times[..n]);
      RefillEarns(l, mid, times[n]);
      EarnsOnlyForward(mid, times[n]);
    }
  }

  /** At most `maxBalance` grants and those earned meanwhile, whatever the times asked at. */
  lemma GrantsAreBounded(l: Limiter, times: seq<real>)
    requires Sane(l) && Forward(l, times)
    ensures Grants(l, times) as real <= l.maxBalance + Earned(l, End(l, times))
  {
    CreditIsConserved(l, times);
  }

  /** No credit is lost: what there was is spent or still there. */
  lemma {:induction false} CreditIsKept(l: Limiter, times: seq<real>)
    requires Sane(l) && Forward(l, times)
    ensures Grants(l, times) as real + After(l, times).balance >= l.balance
  {
    if times != [] {
      var n := |times| - 1;
      var mid := After(l, times[..n]);
      CreditIsConserved(l, times[..n]);
      CreditIsKept(l, times[..n]);
      EarnsOnlyForward(mid, times[n]);
    }
  }

  /** As many requests in a row as there is credit are all granted, however fast they come: from a
      full limiter a whole burst. */
  lemma {:induction false} WholeBurstIsGranted(l: Limiter, times: seq<real>)
    requires Sane(l) && Forward(l, times) && |times| as real <= l.balance
    ensures Grants(l, times) == |times|
  {
    if times != [] {
      var n := |times| - 1;
      var mid := After(l, times[..n]);
      WholeBurstIsGranted(l, times[..n]);
      CreditIsConserved(l, times[..n]);
      CreditIsKept(l, times[..n]);
      EarnsOnlyForward(mid, times[n]);
    }
  }

  /** While nothing is granted, all credit earned is kept. */
  lemma {:induction false} DenialsKeepCredit(l: Limiter, times: seq<real>)
    requires Sane(l) && Forward(l, times) && Grants(l, times) == 0
    ensures After(l, times).balance == Min(l.maxBalance, l.balance + Earned(l, End(l, times)))
    ensures times != [] ==> After(l, times).balance < 1.0
  {
    if times != [] {
      var n := |times| - 1;
      var mid := After(l, times[..n]);
      CreditIsConserved(l, times[..n]);
      DenialsKeepCredit(l, times[..n]);
      RefillEarns(l, mid, times[n]);
      EarnsOnlyForward(mid, times[n]);
    }
  }

  /** Denials cannot go on for as long as it takes to earn one credit. */
  lemma NoStarvation(l: Limiter, times: seq<real>)
    requires Sane(l) && Forward(l, times) && times != []
    requires Earned(l, End(l, times)) >= 1.0
    ensures Grants(l, times) > 0
  {
    if Grants(l, times) == 0 {
      DenialsKeepCredit(l, times);
    }
  }
}
