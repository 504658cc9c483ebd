/** Splitting the probe's overall time budget across addresses (tools/icmp_probe_helper.c). */
module ProbeBudget {

  /** C's `/` truncates, but both operands are positive where it is reached. */
  function PerAddressBudget(remainingMs: int, remainingAddresses: int): int {
    if remainingAddresses <= 0 || remainingMs <= 0 then 0 else remainingMs / remainingAddresses
  }

  /** Nothing left, or nobody left, gives no budget; otherwise all could have as much, but not more. */
  lemma BudgetIsEvenPart(remainingMs: int, remainingAddresses: int)
    ensures var each := PerAddressBudget(remainingMs, remainingAddresses);
            if remainingMs <= 0 || remainingAddresses <= 0 then each == 0
            else each * remainingAddresses <= remainingMs < (each + 1) * remainingAddresses
  {
    if remainingMs > 0 && remainingAddresses > 0 {
      var q, r := remainingMs / remainingAddresses, remainingMs % remainingAddresses;
      assert remainingMs == q * remainingAddresses + r;
      assert (q + 1) * remainingAddresses == q * remainingAddresses + remainingAddresses;
    }
  }

  /** The `i`-th share of `total` split evenly among `n`, the smaller shares first. */
  function Share(total: int, n: int, i: int): int
    requires n > 0
  {
    total / n + if i < n - total % n then 0 else 1
  }

  /** What the first `i` shares add up to. */
  function Spent(total: int, n: int, i: int): int
    requires n > 0
  {
    total / n * i + if i <= n - total % n then 0 else i - (n - total % n)
  }

  lemma DivideExactly(q: int, r: int, d: int)
    requires 0 <= r < d
    ensures (q * d + r) / d == q
  {
    var x := (q * d + r) / d;
    assert x * d <= q * d + r;
    QuotientAtLeast(q * d + r, d, q);
    if x > q {
      Times(q + 1, x, d);
    }
  }

  lemma Times(a: int, b: int, d: int)
    requires a <= b && d > 0
    ensures a * d <= b * d
  {
  }

  lemma QuotientAtLeast(a: int, d: int, q: int)
    requires d > 0 && a >= q * d
    ensures a / d >= q
  {
    var x := a / d;
    assert a < x * d + d;
    if x < q {
      Times(x + 1, q, d);
    }
  }

  /** Dividing what is left by the addresses left gives the next even share. */
  lemma NextShare(total: int, n: int, i: int)
    requires total > 0 && 0 <= i < n
    ensures PerAddressBudget(total - Spent(total, n, i), n - i) == Share(total, n, i)
    ensures Spent(total, n, i + 1) == Spent(total, n, i) + Share(total, n, i)
  {
    var q, m := total / n, total % n;
    assert total == q * n + m && q >= 0;
    SharesAddUp(q, n, i);
    if i < n - m {
      QuotientIsShare(q, m, n - i, total - Spent(total, n, i));
    } else {
      QuotientIsShare(q + 1, 0, n - i, total - Spent(total, n, i));
    }
  }

  lemma SharesAddUp(q: int, n: int, i: int)
    ensures q * (i + 1) == q * i + q && q * (n - i) == q * n - q * i
    ensures (q + 1) * (n - i) == q * n - q * i + n - i
  {
  }

  /** A positive budget of d whole shares and a remainder. */
  lemma QuotientIsShare(q: int, r: int, d: int, left: int)
    requires 0 <= r < d && q >= 0 && left == q * d + r && q + r > 0
    ensures PerAddressBudget(left, d) == q
  {
    DivideExactly(q, r, d);
    Times(0, q, d);
    if q > 0 {
      Times(1, q, d);
    }
  }

  function Total(budgets: seq<int>): int {
    if budgets == [] then 0 else Total(budgets[..|budgets| - 1]) + budgets[|budgets| - 1]
  }

  /** The printed plan: one budget per address, non-decreasing, each the floor or the ceiling
      of the even split, and together exactly the overall budget. */
  method RunPlan(totalMs: int, numAddresses: int) returns (exit: int, budgets: seq<int>)
    ensures totalMs <= 0 || numAddresses <= 0 ==> exit == 2 && budgets == []
    ensures totalMs > 0 && numAddresses > 0 ==>
              && exit == 0 && |budgets| == numAddresses
              && Total(budgets) == totalMs
              && (forall i, j | 0 <= i < j < |budgets| :: budgets[i] <= budgets[j])
              && (forall i | 0 <= i < |budgets| ::
                    totalMs / numAddresses <= budgets[i] <= (totalMs + numAddresses - 1) / numAddresses)
  {
    if totalMs <= 0 || numAddresses <= 0 {
      return 2, [];
    }
    budgets := [];
    var simulatedElapsed, remaining := 0, numAddresses;
    for i := 0 to numAddresses
      invariant |budgets| == i && remaining == numAddresses - i
      invariant simulatedElapsed == Spent(totalMs, numAddresses, i) == Total(budgets)
      invariant forall k | 0 <= k < i :: budgets[k] == Share(totalMs, numAddresses, k)
    {
      NextShare(totalMs, numAddresses, i);
      var remainingOverall := totalMs - simulatedElapsed;
      var budget := PerAddressBudget(remainingOverall, remaining);
      assert (budgets + [budget])[..i] == budgets;
      budgets := budgets + [budget];
      simulatedElapsed := simulatedElapsed + budget;
      remaining := remaining - 1;
    }
    exit := 0;
    SharesAreRounded(totalMs, numAddresses);
  }

  lemma SharesAreRounded(total: int, n: int)
    requires total > 0 && n > 0
    ensures Spent(total, n, n) == total
    ensures forall i | 0 <= i < n :: total / n <= Share(total, n, i) <= (total + n - 1) / n
  {
    var q, m := total / n, total % n;
    assert total == q * n + m;
    if m == 0 {
      assert total + n - 1 == q * n + (n - 1);
      DivideExactly(q, n - 1, n);
    } else {
      assert total + n - 1 == (q + 1) * n + (m - 1);
      DivideExactly(q + 1, m - 1, n);
    }
  }

  // ----- The real loop -----

  datatype Reply = Answered | Silent | Unusable

  /** A resolved address: whether its family is usable, the milliseconds measured when the
      loop reaches it (negative if the clock fails), and what probing it would give. */
  datatype Address = Address(usable: bool, elapsed: int, reply: Reply)

  /** The addresses the loop does not skip over, in order. */
  function Usable(addrs: seq<Address>): seq<Address> {
    if addrs == [] then []
    else Usable(addrs[..|addrs| - 1]) + if addrs[|addrs| - 1].usable then [addrs[|addrs| - 1]] else []
  }

  /** The budget the `k`-th of the usable addresses is offered. */
  function Offer(timeoutMs: int, us: seq<Address>, k: nat): int
    requires k < |us|
  {
    PerAddressBudget(timeoutMs - us[k].elapsed, |us| - k)
  }

  /** No attempt overruns what it was offered: it may finish as early as it likes. */
  ghost predicate NoOverrun(timeoutMs: int, us: seq<Address>) {
    (us != [] ==> us[0].elapsed <= 0) &&
    forall k | 0 < k < |us| :: us[k].elapsed <= us[k - 1].elapsed + Offer(timeoutMs, us, k - 1)
  }

  /** However early the earlier attempts finished, nobody's share shrinks. */
  lemma {:induction false} OffersDoNotShrink(timeoutMs: int, us: seq<Address>, k: nat)
    requires timeoutMs > 0 && NoOverrun(timeoutMs, us) && k < |us|
    ensures Offer(timeoutMs, us, k) >= timeoutMs / |us|
    ensures k > 0 ==> Offer(timeoutMs, us, k) >= Offer(timeoutMs, us, k - 1)
    ensures timeoutMs - us[k].elapsed >= 0
  {
    if k == 0 {
      QuotientAtLeast(timeoutMs - us[0].elapsed, |us|, timeoutMs / |us|);
    } else {
      OffersDoNotShrink(timeoutMs, us, k - 1);
      LeftEnough(timeoutMs - us[k - 1].elapsed, timeoutMs - us[k].elapsed, |us| - k + 1);
    }
  }

  /** After an address that kept within its share, the next share is no smaller. */
  lemma LeftEnough(before: int, after: int, d: int)
    requires before >= 0 && d >= 2 && after >= before - PerAddressBudget(before, d)
    ensures after >= 0 && PerAddressBudget(after, d - 1) >= PerAddressBudget(before, d)
  {
    var q := PerAddressBudget(before, d);
    ShareTimesCount(before, d);
    assert q * d == q * (d - 1) + q;
    if after > 0 {
      QuotientAtLeast(after, d - 1, q);
    } else if q > 0 {
      Times(1, q, d - 1);
    }
  }

  lemma ShareTimesCount(before: int, d: int)
    requires before >= 0 && d >= 1
    ensures 0 <= PerAddressBudget(before, d) && PerAddressBudget(before, d) * d <= before
  {
    if before > 0 {
      QuotientAtLeast(before, d, 0);
      assert before == before / d * d + before % d;
    }
  }

  lemma {:induction false} UsablePrefix(addrs: seq<Address>, k: nat)
    requires k <= |addrs|
    ensures Usable(addrs[..k]) <= Usable(addrs)
    decreases |addrs|
  {
    if k < |addrs| {
      var rest := addrs[..|addrs| - 1];
      assert rest[..k] == addrs[..k];
      UsablePrefix(rest, k);
    } else {
      assert addrs[..k] == addrs;
    }
  }

  /** The `k`-th usable address was offered time and replied as given. */
  ghost predicate Tried(us: seq<Address>, offers: seq<int>, k: nat, reply: Reply) {
    k < |offers| <= |us| && offers[k] > 0 && us[k].reply == reply
  }

  /** So far every address was offered its share and nobody answered. */
  ghost predicate Underway(timeoutMs: int, us: seq<Address>, offers: seq<int>, anySent: bool) {
    && |offers| <= |us|
    && (forall k | 0 <= k < |offers| :: offers[k] == Offer(timeoutMs, us, k))
    && (anySent <==> exists k: nat :: Tried(us, offers, k, Silent))
    && (forall k: nat :: !Tried(us, offers, k, Answered))
  }

  /** The loop ends early only on an answer, a failing clock, or when the time is up. */
  ghost predicate Concluded(timeoutMs: int, us: seq<Address>, offers: seq<int>, exit: int) {
    && |offers| <= |us|
    && (forall k | 0 <= k < |offers| :: offers[k] == Offer(timeoutMs, us, k))
    && var next := if |offers| < |us| then us[|offers|].elapsed else timeoutMs;
    && (exit == 0 <==> exists k: nat :: Tried(us, offers, k, Answered))
    && (forall k: nat | k < |offers| - 1 :: !Tried(us, offers, k, Answered))
    && (exit != 0 ==> next < 0 || next >= timeoutMs)
    && (exit == 1 <==> exit != 0 && next >= 0 && exists k: nat :: Tried(us, offers, k, Silent))
    && (exit == 2 <==> exit != 0 && exit != 1)
  }

  /** The loop over the addresses. Every address reached is offered its share of what is left;
      without overruns that is at least the even share of the whole, so no address is starved. */
  method ProbeAll(timeoutMs: int, addrs: seq<Address>) returns (exit: int, offers: seq<int>)
    requires timeoutMs > 0
    ensures Concluded(timeoutMs, Usable(addrs), offers, exit)
    ensures NoOverrun(timeoutMs, Usable(addrs)) ==>
              && (forall k | 0 <= k < |offers| :: offers[k] >= timeoutMs / |Usable(addrs)|)
              && (forall j, k | 0 <= j < k < |offers| :: offers[j] <= offers[k])
  {
    var remainingAddresses := CountUsable(addrs);
    ghost var us := Usable(addrs);
    var anySent := false;
    offers, exit := [], 2;
    var i := 0;
    while i < |addrs|
      invariant 0 <= i <= |addrs|
      invariant |offers| == |Usable(addrs[..i])| == |us| - remainingAddresses
      invariant Underway(timeoutMs, us, offers, anySent) && exit == 2
    {
      NextUsable(addrs, i);
      if addrs[i].usable {
        var elapsed := addrs[i].elapsed;
        if elapsed < 0 {
          break;
        }
        var remainingOverall := timeoutMs - elapsed;
        if remainingOverall <= 0 {
          exit := if anySent then 1 else 2;
          break;
        }
        var budget := PerAddressBudget(remainingOverall, remainingAddresses);
        remainingAddresses := remainingAddresses - 1;
        OneMoreTried(us, offers, budget);
        offers := offers + [budget];
        assert budget > 0 ==> Tried(us, offers, |offers| - 1, addrs[i].reply);
        if budget > 0 {
          if addrs[i].reply == Answered {
            exit := 0;
            break;
          }
          anySent := anySent || addrs[i].reply == Silent;
        }
      }
      i := i + 1;
    }
    if i == |addrs| {
      assert addrs[..i] == addrs;
      exit := if anySent then 1 else 2;
    }
    EvenShares(timeoutMs, us, offers);
  }

  method CountUsable(addrs: seq<Address>) returns (count: nat)
    ensures count == |Usable(addrs)|
  {
    count := 0;
    for i := 0 to |addrs|
      invariant count == |Usable(addrs[..i])|
    {
      assert addrs[..i + 1][..i] == addrs[..i];
      if addrs[i].usable {
        count := count + 1;
      }
    }
    assert addrs[..|addrs|] == addrs;
  }

  lemma NextUsable(addrs: seq<Address>, i: nat)
    requires i < |addrs|
    ensures var done := |Usable(addrs[..i])|;
            if addrs[i].usable
            then |Usable(addrs[..i + 1])| == done + 1 && done < |Usable(addrs)| && Usable(addrs)[done] == addrs[i]
            else |Usable(addrs[..i + 1])| == done
  {
    assert addrs[..i + 1][..i] == addrs[..i];
    UsablePrefix(addrs, i + 1);
  }

  lemma OneMoreTried(us: seq<Address>, offers: seq<int>, budget: int)
    requires |offers| < |us|
    ensures forall k: nat, r: Reply :: Tried(us, offers + [budget], k, r) <==>
              Tried(us, offers, k, r) || (k == |offers| && budget > 0 && us[k].reply == r)
    ensures forall k: nat, r: Reply | Tried(us, offers, k, r) :: Tried(us, offers + [budget], k, r)
  {
  }

  lemma EvenShares(timeoutMs: int, us: seq<Address>, offers: seq<int>)
    requires timeoutMs > 0 && |offers| <= |us|
    requires forall k | 0 <= k < |offers| :: offers[k] == Offer(timeoutMs, us, k)
    ensures NoOverrun(timeoutMs, us) ==>
              && (forall k | 0 <= k < |offers| :: offers[k] >= timeoutMs / |us|)
              && (forall j, k | 0 <= j < k < |offers| :: offers[j] <= offers[k])
  {
    if NoOverrun(timeoutMs, us) {
      forall k | 0 <= k < |offers|
        ensures offers[k] >= timeoutMs / |us| && (k > 0 ==> offers[k - 1] <= offers[k])
      {
        OffersDoNotShrink(timeoutMs, us, k);
      }
      forall j, k | 0 <= j < k < |offers| ensures offers[j] <= offers[k] {
        Climbs(offers, j, k);
      }
    }
  }

  lemma {:induction false} Climbs(s: seq<int>, j: nat, k: nat)
    requires j <= k < |s| && forall i | 0 < i < |s| :: s[i - 1] <= s[i]
    ensures s[j] <= s[k]
  {
    if j < k {
      Climbs(s, j, k - 1);
    }
  }
}
