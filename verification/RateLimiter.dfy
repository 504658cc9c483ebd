/** Login rate limiting (app/runtime.py): pruned and evicted failure buckets
    against the complete failure log they stand for. */
module RateLimiting {
  import opened Orders

  /** One dictionary entry. The dictionary is a sequence because insertion order breaks ties. */
  datatype Bucket = Bucket(ip: string, stamps: seq<real>)

  datatype Retry = Wait(seconds: real) | IndexError

  function Recent(stamps: seq<real>, now: real, window: real): seq<real> {
    if stamps == [] then []
    else (if now - stamps[0] < window then [stamps[0]] else []) + Recent(stamps[1..], now, window)
  }

  function Pow2(n: nat): nat { if n == 0 then 1 else 2 * Pow2(n - 1) }

  function Lockout(excess: nat, base: real): (l: real)
    ensures base >= 0.0 ==> l >= 0.0
  {
    base * Pow2(Min(excess, 8)) as real
  }

  /** The wait imposed by the failures in `stamps`, the oldest first. */
  function WaitFor(stamps: seq<real>, now: real, maxAttempts: int, lockoutBase: real): Retry {
    if |stamps| < maxAttempts then Wait(0.0)
    else if stamps == [] then IndexError
    else
      var excess := |stamps| - maxAttempts;
      var left := Lockout(excess, lockoutBase) - (now - stamps[|stamps| - 1]);
      Wait(if left < 0.0 then 0.0 else left)
  }

  /** How often the base period the `i`-th failure too many is answered with. */
  const PENALTIES: seq<real> := [1.0, 2.0, 4.0, 8.0, 16.0, 32.0, 64.0, 128.0, 256.0]

  /** What the limiter imposes for the failures `k`, the latest last: nothing below the limit; at
      the limit the base period from the latest failure on, twice that for one failure more, and
      so on up to eight doublings. */
  ghost predicate Imposes(k: seq<real>, now: real, maxAttempts: int, lockoutBase: real, r: Retry) {
    && (|k| < maxAttempts ==> r == Wait(0.0))
    && (|k| >= maxAttempts && k == [] ==> r == IndexError)
    && (|k| >= maxAttempts && k != [] ==>
          var period := lockoutBase * PENALTIES[Min(|k| - maxAttempts, 8)];
          var passed := now - k[|k| - 1];
          r == Wait(if period <= passed then 0.0 else period - passed))
  }

  lemma PenaltiesDouble(i: nat)
    requires i < 8
    ensures PENALTIES[0] == 1.0 && PENALTIES[i + 1] == 2.0 * PENALTIES[i]
  {
  }

  lemma {:induction false} PenaltyIsPower(n: nat)
    requires n <= 8
    ensures PENALTIES[n] == Pow2(n) as real
  {
    if n > 0 {
      PenaltiesDouble(n - 1);
      PenaltyIsPower(n - 1);
    }
  }

  lemma WaitIsImposed(k: seq<real>, now: real, maxAttempts: int, lockoutBase: real)
    ensures Imposes(k, now, maxAttempts, lockoutBase, WaitFor(k, now, maxAttempts, lockoutBase))
  {
    if |k| >= maxAttempts {
      PenaltyIsPower(Min(|k| - maxAttempts, 8));
    }
  }

  /** One failure more at the same moment: a lockout still in force is counted from the same time,
      with twice the period before the ninth failure too many and the same one from then on. */
  lemma OneMoreFailureDoubles(k: seq<real>, now: real, maxAttempts: int, lockoutBase: real)
    requires 1 <= maxAttempts <= |k| && lockoutBase >= 0.0
    ensures var last := k[|k| - 1];
            var one := WaitFor(k, now, maxAttempts, lockoutBase);
            var more := WaitFor(k + [last], now, maxAttempts, lockoutBase);
            && one.Wait? && more.Wait?
            && (one.seconds > 0.0 ==>
                  var period := one.seconds + (now - last);
                  more.seconds + (now - last) == if |k| - maxAttempts < 8 then 2.0 * period else period)
  {
    WaitIsImposed(k, now, maxAttempts, lockoutBase);
    WaitIsImposed(k + [k[|k| - 1]], now, maxAttempts, lockoutBase);
    if |k| - maxAttempts < 8 {
      PenaltiesDouble(|k| - maxAttempts);
    }
  }

  // ----- The dictionary operations -----

  function StampsOf(bs: seq<Bucket>, ip: string): seq<real> {
    if bs == [] then [] else if bs[0].ip == ip then bs[0].stamps else StampsOf(bs[1..], ip)
  }

  ghost predicate Absent(bs: seq<Bucket>, ip: string) { forall b | b in bs :: b.ip != ip }

  ghost predicate Distinct(bs: seq<Bucket>) {
    bs == [] || (Absent(bs[1..], bs[0].ip) && Distinct(bs[1..]))
  }

  lemma {:induction false} DistinctIdentifies(bs: seq<Bucket>, a: Bucket, b: Bucket)
    requires Distinct(bs) && a in bs && b in bs && a.ip == b.ip
    ensures a == b
  {
    if a != bs[0] && b != bs[0] {
      DistinctIdentifies(bs[1..], a, b);
    }
  }

  ghost predicate NoneEmpty(bs: seq<Bucket>) { forall b | b in bs :: b.stamps != [] }

  ghost predicate NoneAfter(bs: seq<Bucket>, now: real) {
    forall b, s | b in bs && s in b.stamps :: s <= now
  }

  function Live(bs: seq<Bucket>, now: real, window: real): seq<Bucket> {
    if bs == [] then []
    else
      var current := Recent(bs[0].stamps, now, window);
      (if current == [] then [] else [Bucket(bs[0].ip, current)]) + Live(bs[1..], now, window)
  }

  function Pop(bs: seq<Bucket>, ip: string): seq<Bucket> {
    if bs == [] then [] else if bs[0].ip == ip then bs[1..] else [bs[0]] + Pop(bs[1..], ip)
  }

  function Append(bs: seq<Bucket>, ip: string, now: real): seq<Bucket> {
    if bs == [] then [Bucket(ip, [now])]
    else if bs[0].ip == ip then [Bucket(ip, bs[0].stamps + [now])] + bs[1..]
    else [bs[0]] + Append(bs[1..], ip, now)
  }

  function LastStamp(b: Bucket): real {
    if b.stamps == [] then 0.0 else b.stamps[|b.stamps| - 1]
  }

  predicate LastBefore(a: Bucket, b: Bucket) { LastStamp(a) < LastStamp(b) }

  /** The buckets beyond the limit, the longest quiet ones first. */
  function Victims(bs: seq<Bucket>, limit: int): (v: seq<Bucket>)
    ensures limit >= 1 ==> |v| == Max(0, |bs| - limit)
  {
    SortPermutes(bs, LastBefore);
    if |bs| > limit then Sort(bs, LastBefore)[..Min(|bs|, |bs| - limit)] else []
  }

  function PopAll(bs: seq<Bucket>, victims: seq<Bucket>): seq<Bucket>
    decreases |victims|
  {
    if victims == [] then bs else PopAll(Pop(bs, victims[0].ip), victims[1..])
  }

  function Pruned(bs: seq<Bucket>, now: real, window: real, limit: int): seq<Bucket> {
    var live := Live(bs, now, window);
    PopAll(live, Victims(live, limit))
  }

  // ----- Laws of the dictionary operations -----

  lemma {:induction false} RecentAppend(s: seq<real>, t: seq<real>, now: real, window: real)
    ensures Recent(s + t, now, window) == Recent(s, now, window) + Recent(t, now, window)
  {
    if s == [] {
      assert s + t == t;
    } else {
      assert (s + t)[1..] == s[1..] + t;
      RecentAppend(s[1..], t, now, window);
    }
  }

  /** Pruning early loses nothing a later prune would keep. */
  lemma {:induction false} RecentTwice(s: seq<real>, early: real, late: real, window: real)
    requires early <= late
    ensures Recent(Recent(s, early, window), late, window) == Recent(s, late, window)
  {
    if s != [] {
      RecentTwice(s[1..], early, late, window);
      var head := if early - s[0] < window then [s[0]] else [];
      RecentAppend(head, Recent(s[1..], early, window), late, window);
    }
  }

  lemma {:induction false} AbsentStamps(bs: seq<Bucket>, ip: string)
    requires Absent(bs, ip)
    ensures StampsOf(bs, ip) == []
  {
    if bs != [] {
      AbsentStamps(bs[1..], ip);
    }
  }

  lemma {:induction false} LiveIps(bs: seq<Bucket>, now: real, window: real)
    requires Distinct(bs)
    ensures Distinct(Live(bs, now, window)) && NoneEmpty(Live(bs, now, window))
    ensures forall ip | Absent(bs, ip) :: Absent(Live(bs, now, window), ip)
    ensures |Live(bs, now, window)| <= |bs|
  {
    if bs != [] {
      LiveIps(bs[1..], now, window);
      var tail := Live(bs[1..], now, window);
      assert Live(bs, now, window) == tail || Live(bs, now, window)[1..] == tail;
      forall ip | Absent(bs, ip) ensures Absent(Live(bs, now, window), ip) {
        assert bs[0].ip != ip && Absent(bs[1..], ip);
      }
    }
  }

  lemma {:induction false} LiveBound(bs: seq<Bucket>, now: real, window: real, t: real)
    requires NoneAfter(bs, t)
    ensures NoneAfter(Live(bs, now, window), t)
  {
    if bs != [] {
      LiveBound(bs[1..], now, window, t);
      RecentSubset(bs[0].stamps, now, window);
    }
  }

  lemma {:induction false} AppendBound(bs: seq<Bucket>, ip: string, now: real, t: real)
    requires NoneAfter(bs, t) && now <= t
    ensures NoneAfter(Append(bs, ip, now), t)
  {
    if bs != [] && bs[0].ip != ip {
      AppendBound(bs[1..], ip, now, t);
    }
  }

  lemma {:induction false} RecentSubset(s: seq<real>, now: real, window: real)
    ensures forall x | x in Recent(s, now, window) :: x in s
  {
    if s != [] {
      RecentSubset(s[1..], now, window);
    }
  }

  lemma {:induction false} LiveAppend(bs: seq<Bucket>, b: Bucket, now: real, window: real)
    ensures Live(bs + [b], now, window) == Live(bs, now, window) + Live([b], now, window)
  {
    if bs == [] {
      assert bs + [b] == [b];
    } else {
      assert (bs + [b])[1..] == bs[1..] + [b];
      LiveAppend(bs[1..], b, now, window);
      var head, rest, last := Live([bs[0]], now, window), Live(bs[1..], now, window), Live([b], now, window);
      LiveSplits(bs, now, window);
      LiveSplits(bs + [b], now, window);
      assert head + (rest + last) == (head + rest) + last;
    }
  }

  lemma LiveSplits(bs: seq<Bucket>, now: real, window: real)
    requires bs != []
    ensures Live(bs, now, window) == Live([bs[0]], now, window) + Live(bs[1..], now, window)
  {
    assert [bs[0]][1..] == [];
  }

  lemma {:induction false} LiveStamps(bs: seq<Bucket>, ip: string, now: real, window: real)
    requires Distinct(bs)
    ensures StampsOf(Live(bs, now, window), ip) == Recent(StampsOf(bs, ip), now, window)
  {
    if bs != [] {
      LiveStamps(bs[1..], ip, now, window);
      assert [] + Live(bs[1..], now, window) == Live(bs[1..], now, window);
      if bs[0].ip == ip {
        AbsentStamps(bs[1..], ip);
      }
    }
  }

  lemma {:induction false} PopLaws(bs: seq<Bucket>, b: Bucket)
    requires Distinct(bs) && b in bs
    ensures forall a :: a in Pop(bs, b.ip) <==> a in bs && a.ip != b.ip
    ensures Distinct(Pop(bs, b.ip)) && |Pop(bs, b.ip)| == |bs| - 1
  {
    if bs[0].ip != b.ip {
      PopLaws(bs[1..], b);
    }
  }

  lemma {:induction false} PopStamps(bs: seq<Bucket>, ip: string, other: string)
    requires Distinct(bs)
    ensures StampsOf(Pop(bs, ip), other) == if ip == other then [] else StampsOf(bs, other)
  {
    if bs != [] {
      if bs[0].ip == ip {
        AbsentStamps(bs[1..], ip);
      } else {
        PopStamps(bs[1..], ip, other);
      }
    }
  }

  lemma {:induction false} PopAllLaws(bs: seq<Bucket>, victims: seq<Bucket>)
    requires Distinct(bs) && Distinct(victims) && forall v | v in victims :: v in bs
    ensures forall b :: b in PopAll(bs, victims) <==> b in bs && b !in victims
    ensures Distinct(PopAll(bs, victims)) && |PopAll(bs, victims)| == |bs| - |victims|
    decreases |victims|
  {
    if victims != [] {
      PopLaws(bs, victims[0]);
      PopAllLaws(Pop(bs, victims[0].ip), victims[1..]);
      forall b | b in bs && b.ip == victims[0].ip ensures b == victims[0] {
        DistinctIdentifies(bs, b, victims[0]);
      }
    }
  }

  lemma {:induction false} PopAllStamps(bs: seq<Bucket>, victims: seq<Bucket>, ip: string)
    requires Distinct(bs) && Distinct(victims) && forall v | v in victims :: v in bs
    ensures StampsOf(PopAll(bs, victims), ip) ==
            if exists v :: v in victims && v.ip == ip then [] else StampsOf(bs, ip)
    decreases |victims|
  {
    if victims != [] {
      PopLaws(bs, victims[0]);
      PopStamps(bs, victims[0].ip, ip);
      PopAllStamps(Pop(bs, victims[0].ip), victims[1..], ip);
      if victims[0].ip == ip {
        assert victims[0] in victims;
      }
    }
  }

  lemma {:induction false} InsertDistinct(x: Bucket, s: seq<Bucket>)
    requires Distinct(s) && Absent(s, x.ip)
    ensures Distinct(Insert(x, s, LastBefore))
    ensures forall b :: b in Insert(x, s, LastBefore) <==> b == x || b in s
  {
    if s != [] && LastBefore(s[0], x) {
      InsertDistinct(x, s[1..]);
    }
  }

  lemma {:induction false} SortDistinct(bs: seq<Bucket>)
    requires Distinct(bs)
    ensures Distinct(Sort(bs, LastBefore))
  {
    if bs != [] {
      SortDistinct(bs[1..]);
      SortMembers(bs[1..], LastBefore);
      InsertDistinct(bs[0], Sort(bs[1..], LastBefore));
    }
  }

  lemma LastBeforeIsOrder()
    ensures StrictWeakOrder(LastBefore)
  {
  }

  lemma VictimsAreBuckets(bs: seq<Bucket>, limit: int)
    requires Distinct(bs)
    ensures Distinct(Victims(bs, limit)) && forall v | v in Victims(bs, limit) :: v in bs
  {
    SortDistinct(bs);
    SortMembers(bs, LastBefore);
    SortPermutes(bs, LastBefore);
    if |bs| > limit {
      DistinctPrefix(Sort(bs, LastBefore), Min(|bs|, |bs| - limit));
    }
  }

  lemma {:induction false} DistinctPrefix(bs: seq<Bucket>, k: nat)
    requires Distinct(bs) && k <= |bs|
    ensures Distinct(bs[..k])
  {
    if k > 0 {
      DistinctPrefix(bs[1..], k - 1);
      assert bs[..k][1..] == bs[1..][..k - 1];
    }
  }

  /** Eviction: at most `limit` buckets survive, they are the ones not evicted, and no
      evicted bucket failed more recently than a survivor. */
  lemma EvictsOldest(bs: seq<Bucket>, limit: int)
    requires Distinct(bs)
    ensures var kept := PopAll(bs, Victims(bs, limit));
            && |kept| == Min(|bs|, Max(0, limit)) && Distinct(kept)
            && (forall b :: b in kept <==> b in bs && b !in Victims(bs, limit))
            && forall v, s | v in Victims(bs, limit) && s in kept :: LastStamp(v) <= LastStamp(s)
  {
    var victims := Victims(bs, limit);
    var kept := PopAll(bs, victims);
    VictimsAreBuckets(bs, limit);
    PopAllLaws(bs, victims);
    SortPermutes(bs, LastBefore);
    forall v, s | v in victims && s in kept ensures LastStamp(v) <= LastStamp(s) {
      SurvivorNewer(bs, limit, v, s);
    }
  }

  lemma SurvivorNewer(bs: seq<Bucket>, limit: int, v: Bucket, s: Bucket)
    requires v in Victims(bs, limit) && s in bs && s !in Victims(bs, limit)
    ensures LastStamp(v) <= LastStamp(s)
  {
    SortPermutes(bs, LastBefore);
    SortMembers(bs, LastBefore);
    LastBeforeIsOrder();
    SortSorts(bs, LastBefore);
    var sorted, k := Sort(bs, LastBefore), Min(|bs|, |bs| - limit);
    var i :| 0 <= i < k && sorted[..k][i] == v;
    var j :| 0 <= j < |sorted| && sorted[j] == s;
    assert forall m | 0 <= m < k :: sorted[m] == sorted[..k][m];
    assert !LastBefore(sorted[j], sorted[i]);
  }

  lemma {:induction false} AppendLaws(bs: seq<Bucket>, ip: string, now: real)
    requires Distinct(bs)
    ensures Distinct(Append(bs, ip, now))
    ensures forall b | b in Append(bs, ip, now) :: b.ip == ip || b in bs
    ensures !Absent(bs, ip) ==> |Append(bs, ip, now)| == |bs|
  {
    if bs != [] && bs[0].ip != ip {
      AppendLaws(bs[1..], ip, now);
    }
  }

  lemma {:induction false} AppendAbsent(bs: seq<Bucket>, ip: string, now: real)
    requires Absent(bs, ip)
    ensures Append(bs, ip, now) == bs + [Bucket(ip, [now])]
  {
    if bs == [] {
      assert bs + [Bucket(ip, [now])] == [Bucket(ip, [now])];
    } else {
      AppendAbsent(bs[1..], ip, now);
      assert bs == [bs[0]] + bs[1..];
    }
  }

  lemma {:induction false} AppendStamps(bs: seq<Bucket>, ip: string, now: real, other: string)
    ensures StampsOf(Append(bs, ip, now), other) == StampsOf(bs, other) + if other == ip then [now] else []
  {
    if bs != [] && bs[0].ip != ip {
      AppendStamps(bs[1..], ip, now, other);
    }
  }

  /** In a stable sort the last element comes first only before strictly greater ones. */
  lemma {:induction false} LastComesFirst(s: seq<Bucket>, x: Bucket)
    requires Absent(s, x.ip) && Sort(s + [x], LastBefore)[..1] == [x]
    ensures forall y | y in s :: LastBefore(x, y)
  {
    if s != [] {
      var rest := s[1..];
      assert (s + [x])[1..] == rest + [x];
      SortPermutes(rest + [x], LastBefore);
      assert Sort(s + [x], LastBefore)[0] == x;
      assert s[0] != x;
      LastComesFirst(rest, x);
    }
  }

  /** Of `limit + 1` buckets one goes; it is the last one only if all others failed later. */
  lemma OneTooMany(bs: seq<Bucket>, b: Bucket, limit: int)
    requires Absent(bs, b.ip) && 1 <= limit && |bs| <= limit
    ensures |Victims(bs + [b], limit)| == if |bs| == limit then 1 else 0
    ensures b in Victims(bs + [b], limit) ==> forall a | a in bs :: LastStamp(b) < LastStamp(a)
  {
    SortPermutes(bs + [b], LastBefore);
    if b in Victims(bs + [b], limit) {
      assert Victims(bs + [b], limit) == Sort(bs + [b], LastBefore)[..1];
      LastComesFirst(bs, b);
    }
  }

  /** The buckets after a failure of `ip`, before eviction. */
  function Grown(before: seq<Bucket>, ip: string, now: real, window: real): seq<Bucket> {
    Live(Append(Live(before, now, window), ip, now), now, window)
  }

  lemma GrownShape(before: seq<Bucket>, ip: string, now: real, window: real, t: real)
    requires Distinct(before) && NoneAfter(before, t) && now <= t
    ensures var current := Grown(before, ip, now, window);
            Distinct(current) && NoneEmpty(current) && NoneAfter(current, t)
  {
    var live := Live(before, now, window);
    LiveIps(before, now, window);
    LiveBound(before, now, window, t);
    AppendLaws(live, ip, now);
    AppendBound(live, ip, now, t);
    LiveIps(Append(live, ip, now), now, window);
    LiveBound(Append(live, ip, now), now, window, t);
  }

  lemma GrownStamps(before: seq<Bucket>, ip: string, now: real, window: real, o: string)
    requires Distinct(before)
    ensures StampsOf(Grown(before, ip, now, window), o) ==
            Recent(StampsOf(before, o), now, window) + if o == ip then Recent([now], now, window) else []
  {
    var live := Live(before, now, window);
    LiveIps(before, now, window);
    AppendLaws(live, ip, now);
    AppendStamps(live, ip, now, o);
    LiveStamps(Append(live, ip, now), o, now, window);
    LiveStamps(before, o, now, window);
    RecentTwice(StampsOf(before, o), now, now, window);
    if o == ip {
      RecentAppend(StampsOf(live, o), [now], now, window);
    } else {
      assert StampsOf(live, o) + [] == StampsOf(live, o);
      assert Recent(StampsOf(before, o), now, window) + [] == Recent(StampsOf(before, o), now, window);
    }
  }

  /** A failure can cost the address itself its place only if every other one failed later. */
  lemma RecordedIsSpared(before: seq<Bucket>, ip: string, now: real, window: real, limit: int)
    requires Distinct(before) && |before| <= limit && 1 <= limit && window > 0.0
    ensures var current := Grown(before, ip, now, window);
            && |Victims(current, limit)| <= 1
            && ((exists v :: v in Victims(current, limit) && v.ip == ip) ==>
                  forall a | a in current && a.ip != ip :: now < LastStamp(a))
  {
    var live := Live(before, now, window);
    LiveIps(before, now, window);
    AppendLaws(live, ip, now);
    LiveIps(Append(live, ip, now), now, window);
    if Absent(live, ip) {
      AppendAbsent(live, ip, now);
      LiveNewest(live, Bucket(ip, [now]), now, window);
      LiveIps(live, now, window);
      NewcomerIsSpared(Live(live, now, window), Bucket(ip, [now]), limit);
    }
  }

  lemma NewcomerIsSpared(bs: seq<Bucket>, b: Bucket, limit: int)
    requires Distinct(bs + [b]) && Absent(bs, b.ip) && 1 <= limit && |bs| <= limit
    ensures |Victims(bs + [b], limit)| <= 1
    ensures (exists v :: v in Victims(bs + [b], limit) && v.ip == b.ip) ==>
              forall a | a in bs + [b] && a.ip != b.ip :: LastStamp(b) < LastStamp(a)
  {
    OneTooMany(bs, b, limit);
    VictimsAreBuckets(bs + [b], limit);
    if v: Bucket :| v in Victims(bs + [b], limit) && v.ip == b.ip {
      assert v in bs + [b] && v == b;
    }
  }

  lemma LiveNewest(live: seq<Bucket>, newest: Bucket, now: real, window: real)
    requires newest.stamps == [now] && window > 0.0
    ensures Live(live + [newest], now, window) == Live(live, now, window) + [newest]
  {
    LiveAppend(live, newest, now, window);
    assert Recent([now], now, window) == [now];
    assert Live([newest], now, window) == [newest];
  }

  lemma LastNotAfter(bs: seq<Bucket>, now: real)
    requires NoneAfter(bs, now) && NoneEmpty(bs)
    ensures forall b | b in bs :: LastStamp(b) <= now
  {
    forall b | b in bs ensures LastStamp(b) <= now {
      assert b.stamps[|b.stamps| - 1] in b.stamps;
    }
  }

  /** Waiting the reported time is enough: without new failures the limit is then lifted. */
  lemma WaitingSuffices(log: seq<real>, now: real, window: real, maxAttempts: int, lockoutBase: real)
    requires maxAttempts >= 1 && lockoutBase >= 0.0
    requires forall i, j | 0 <= i < j < |log| :: log[i] <= log[j]
    ensures var w := WaitFor(Recent(log, now, window), now, maxAttempts, lockoutBase);
            w.Wait? &&
            WaitFor(Recent(log, now + w.seconds, window), now + w.seconds, maxAttempts, lockoutBase) == Wait(0.0)
  {
    var w := WaitFor(Recent(log, now, window), now, maxAttempts, lockoutBase);
    var later := now + w.seconds;
    RecentTwice(log, now, later, window);
    RecentShrinks(Recent(log, now, window), later, window);
    RecentKeepsLast(log, now, window);
    RecentKeepsLast(log, later, window);
    ServedWait(Recent(log, now, window), Recent(log, later, window), now, maxAttempts, lockoutBase);
  }

  lemma ServedWait(before: seq<real>, after: seq<real>, now: real, maxAttempts: int, lockoutBase: real)
    requires maxAttempts >= 1 && lockoutBase >= 0.0 && |after| <= |before|
    requires after != [] ==> after[|after| - 1] == before[|before| - 1]
    ensures var w := WaitFor(before, now, maxAttempts, lockoutBase);
            w.Wait? && WaitFor(after, now + w.seconds, maxAttempts, lockoutBase) == Wait(0.0)
  {
    if |after| >= maxAttempts {
      LockoutMonotone(|after| - maxAttempts, |before| - maxAttempts, lockoutBase);
    }
  }

  lemma LockoutMonotone(less: nat, more: nat, base: real)
    requires less <= more && base >= 0.0
    ensures Lockout(less, base) <= Lockout(more, base)
  {
    Pow2Monotone(Min(less, 8), Min(more, 8));
  }

  lemma {:induction false} RecentShrinks(s: seq<real>, now: real, window: real)
    ensures |Recent(s, now, window)| <= |s|
  {
    if s != [] {
      RecentShrinks(s[1..], now, window);
    }
  }

  lemma {:induction false} RecentKeepsLast(s: seq<real>, now: real, window: real)
    requires forall i, j | 0 <= i < j < |s| :: s[i] <= s[j]
    ensures var r := Recent(s, now, window);
            r != [] ==> r[|r| - 1] == s[|s| - 1]
  {
    if s != [] {
      RecentKeepsLast(s[1..], now, window);
      if |s| > 1 && now - s[0] < window {
        RecentNonEmpty(s[1..], now, window);
      }
    }
  }

  lemma {:induction false} RecentNonEmpty(s: seq<real>, now: real, window: real)
    requires s != [] && now - s[|s| - 1] < window
    ensures Recent(s, now, window) != []
  {
    if |s| > 1 {
      RecentNonEmpty(s[1..], now, window);
    }
  }

  lemma {:induction false} Pow2Monotone(a: nat, b: nat)
    requires a <= b
    ensures Pow2(a) <= Pow2(b)
  {
    if a < b {
      Pow2Monotone(a, b - 1);
    }
  }

  // ----- The history the buckets stand for -----

  /** A recorded failure, and the latest clock reading at which a prune has looked at it. The clock
      is read before the lock is taken, so readings need not be in order. */
  datatype Failure = Failure(stamp: real, seen: real)

  function Stamps(fs: seq<Failure>): seq<real> {
    if fs == [] then [] else [fs[0].stamp] + Stamps(fs[1..])
  }

  /** The stamps that every prune so far has found recent. */
  function Kept(fs: seq<Failure>, window: real): seq<real> {
    if fs == [] then []
    else (if fs[0].seen - fs[0].stamp < window then [fs[0].stamp] else []) + Kept(fs[1..], window)
  }

  function Later(a: real, b: real): real { if a < b then b else a }

  function SeenAt(fs: seq<Failure>, now: real): seq<Failure> {
    if fs == [] then [] else [Failure(fs[0].stamp, Later(fs[0].seen, now))] + SeenAt(fs[1..], now)
  }

  lemma {:induction false} SeenShape(fs: seq<Failure>, now: real)
    ensures |SeenAt(fs, now)| == |fs| && Stamps(SeenAt(fs, now)) == Stamps(fs)
    ensures forall k | 0 <= k <= |fs| :: SeenAt(fs, now)[k..] == SeenAt(fs[k..], now)
  {
    if fs != [] {
      SeenShape(fs[1..], now);
      forall k | 0 <= k <= |fs| ensures SeenAt(fs, now)[k..] == SeenAt(fs[k..], now) {
        if k > 0 {
          assert SeenAt(fs, now)[k..] == SeenAt(fs[1..], now)[k - 1..];
          assert fs[k..] == fs[1..][k - 1..];
        }
      }
    }
  }

  /** A prune keeps of a log what it finds recent among what earlier prunes kept. */
  lemma {:induction false} KeptOfSeen(fs: seq<Failure>, now: real, window: real)
    ensures Kept(SeenAt(fs, now), window) == Recent(Kept(fs, window), now, window)
  {
    if fs != [] {
      KeptOfSeen(fs[1..], now, window);
      var head := if fs[0].seen - fs[0].stamp < window then [fs[0].stamp] else [];
      RecentAppend(head, Kept(fs[1..], window), now, window);
      assert SeenAt(fs, now)[1..] == SeenAt(fs[1..], now);
    }
  }

  lemma {:induction false} KeptAppend(fs: seq<Failure>, gs: seq<Failure>, window: real)
    ensures Kept(fs + gs, window) == Kept(fs, window) + Kept(gs, window)
  {
    if fs == [] {
      assert fs + gs == gs;
    } else {
      assert (fs + gs)[1..] == fs[1..] + gs;
      KeptAppend(fs[1..], gs, window);
    }
  }

  lemma {:induction false} StampsAppend(fs: seq<Failure>, gs: seq<Failure>)
    ensures Stamps(fs + gs) == Stamps(fs) + Stamps(gs)
  {
    if fs == [] {
      assert fs + gs == gs;
    } else {
      assert (fs + gs)[1..] == fs[1..] + gs;
      StampsAppend(fs[1..], gs);
    }
  }

  /** A reading that would still count the failure came after a prune with a later reading. */
  predicate Lost(f: Failure, now: real, window: real) { now - f.stamp < window <= f.seen - f.stamp }

  lemma {:induction false} KeptAtMostRecent(fs: seq<Failure>, now: real, window: real)
    ensures |Kept(SeenAt(fs, now), window)| <= |Recent(Stamps(fs), now, window)|
    ensures Kept(SeenAt(fs, now), window) == Recent(Stamps(fs), now, window)
            <==> forall f | f in fs :: !Lost(f, now, window)
  {
    if fs != [] {
      var f, rest := fs[0], fs[1..];
      KeptAtMostRecent(rest, now, window);
      assert fs == [f] + rest;
      assert SeenAt(fs, now)[1..] == SeenAt(rest, now) && Stamps(fs)[1..] == Stamps(rest);
      var kept := if Later(f.seen, now) - f.stamp < window then [f.stamp] else [];
      var recent := if now - f.stamp < window then [f.stamp] else [];
      assert Lost(f, now, window) <==> kept != recent;
      SameHeads(kept, recent, Kept(SeenAt(rest, now), window), Recent(Stamps(rest), now, window));
    }
  }

  lemma SameHeads(a: seq<real>, b: seq<real>, s: seq<real>, t: seq<real>)
    requires |a| <= |b| <= 1 && |s| <= |t| && (|a| == |b| ==> a == b)
    ensures a + s == b + t <==> a == b && s == t
  {
    if a + s == b + t {
      assert |a + s| == |b + t|;
      assert s == (a + s)[|a|..] && t == (b + t)[|b|..];
    }
  }

  /** Every failure since the address was last reset, and how many of the oldest ones an
      eviction has made the limiter forget (0 while none has). */
  datatype History = History(log: map<string, seq<Failure>>, forgotten: map<string, nat>) {
    function Log(ip: string): seq<Failure> { if ip in log then log[ip] else [] }

    function Forgotten(ip: string): (n: nat)
      ensures n <= |Log(ip)|
    {
      if ip in forgotten then Min(forgotten[ip], |Log(ip)|) else 0
    }

    function Remembered(ip: string): seq<Failure> { Log(ip)[Forgotten(ip)..] }

    function Pruned(now: real): History { History(map ip | ip in log :: SeenAt(log[ip], now), forgotten) }

    function Record(ip: string, now: real): History {
      History(log[ip := Log(ip) + [Failure(now, now)]], forgotten[ip := Forgotten(ip)])
    }

    function Evict(ips: set<string>): History {
      History(log, forgotten + map ip | ip in ips :: |Log(ip)|)
    }

    function Reset(ip: string): History { History(log - {ip}, forgotten - {ip}) }
  }

  ghost predicate Reflects(bs: seq<Bucket>, h: History, window: real) {
    forall ip :: StampsOf(bs, ip) == Kept(h.Remembered(ip), window)
  }

  lemma PrunedRemembers(h: History, now: real, ip: string)
    ensures h.Pruned(now).Remembered(ip) == SeenAt(h.Remembered(ip), now)
    ensures h.Pruned(now).Forgotten(ip) == h.Forgotten(ip)
    ensures h.Pruned(now).Log(ip) == SeenAt(h.Log(ip), now)
  {
    SeenShape(h.Log(ip), now);
  }

  lemma RecordLog(h: History, ip: string, now: real, o: string)
    ensures h.Record(ip, now).Log(o) == h.Log(o) + if o == ip then [Failure(now, now)] else []
  {
    assert h.Log(o) + [] == h.Log(o);
  }

  lemma RecordForgotten(h: History, ip: string, now: real, o: string)
    ensures h.Record(ip, now).Forgotten(o) == h.Forgotten(o)
  {
    RecordLog(h, ip, now, o);
  }

  lemma RecordRemembers(h: History, ip: string, now: real, o: string)
    ensures h.Record(ip, now).Remembered(o) == h.Remembered(o) + if o == ip then [Failure(now, now)] else []
  {
    RecordLog(h, ip, now, o);
    RecordForgotten(h, ip, now, o);
    TailOfAppend(h.Log(o), if o == ip then [Failure(now, now)] else [], h.Forgotten(o));
  }

  lemma TailOfAppend<T>(s: seq<T>, t: seq<T>, n: nat)
    requires n <= |s|
    ensures (s + t)[n..] == s[n..] + t
  {
  }

  lemma RecordStamps(h: History, ip: string, now: real, o: string)
    ensures Stamps(h.Record(ip, now).Log(o)) == if o == ip then Stamps(h.Log(o)) + [now] else Stamps(h.Log(o))
  {
    RecordLog(h, ip, now, o);
    if o == ip {
      StampsAppend(h.Log(o), [Failure(now, now)]);
    }
  }

  lemma PrunedStamps(h: History, now: real, ip: string)
    ensures Stamps(h.Pruned(now).Log(ip)) == Stamps(h.Log(ip))
  {
    PrunedRemembers(h, now, ip);
    SeenShape(h.Log(ip), now);
  }

  lemma LiveReflects(bs: seq<Bucket>, h: History, now: real, window: real)
    requires Distinct(bs) && Reflects(bs, h, window)
    ensures Reflects(Live(bs, now, window), h.Pruned(now), window)
  {
    forall ip ensures StampsOf(Live(bs, now, window), ip) == Kept(h.Pruned(now).Remembered(ip), window) {
      LiveStamps(bs, ip, now, window);
      PrunedRemembers(h, now, ip);
      KeptOfSeen(h.Remembered(ip), now, window);
    }
  }

  lemma GrownReflects(bs: seq<Bucket>, h: History, ip: string, now: real, window: real)
    requires Distinct(bs) && Reflects(bs, h, window)
    ensures Reflects(Grown(bs, ip, now, window), h.Record(ip, now).Pruned(now), window)
  {
    var after := h.Record(ip, now).Pruned(now);
    forall o ensures StampsOf(Grown(bs, ip, now, window), o) == Kept(after.Remembered(o), window) {
      GrownStamps(bs, ip, now, window, o);
      PrunedRemembers(h.Record(ip, now), now, o);
      RecordRemembers(h, ip, now, o);
      KeptOfSeen(h.Record(ip, now).Remembered(o), now, window);
      AppendedFailure(h.Remembered(o), now, window, o == ip);
    }
  }

  lemma AppendedFailure(fs: seq<Failure>, now: real, window: real, appended: bool)
    ensures Recent(Kept(fs + if appended then [Failure(now, now)] else [], window), now, window)
            == Recent(Kept(fs, window), now, window) + if appended then Recent([now], now, window) else []
  {
    if appended {
      KeptAppend(fs, [Failure(now, now)], window);
      var last := Kept([Failure(now, now)], window);
      RecentAppend(Kept(fs, window), last, now, window);
    } else {
      assert fs + [] == fs;
    }
  }

  ghost function Ips(bs: seq<Bucket>): set<string> { set b | b in bs :: b.ip }

  lemma EvictForgets(h: History, ips: set<string>, o: string)
    ensures h.Evict(ips).Remembered(o) == if o in ips then [] else h.Remembered(o)
    ensures h.Evict(ips).Log(o) == h.Log(o)
  {
  }

  lemma EvictedReflects(bs: seq<Bucket>, victims: seq<Bucket>, h: History, window: real)
    requires Distinct(bs) && Distinct(victims) && forall v | v in victims :: v in bs
    requires Reflects(bs, h, window)
    ensures Reflects(PopAll(bs, victims), h.Evict(Ips(victims)), window)
  {
    var e := h.Evict(Ips(victims));
    forall o ensures StampsOf(PopAll(bs, victims), o) == Kept(e.Remembered(o), window) {
      PopAllStamps(bs, victims, o);
      EvictForgets(h, Ips(victims), o);
      if o in Ips(victims) {
        var v :| v in victims && v.ip == o;
      }
    }
  }

  lemma EvictionSeparates(bs: seq<Bucket>, victims: seq<Bucket>)
    requires Distinct(bs) && Distinct(victims) && forall v | v in victims :: v in bs
    ensures Ips(victims) !! Ips(PopAll(bs, victims))
  {
    PopAllLaws(bs, victims);
    forall v, b | v in victims && b in PopAll(bs, victims) ensures v.ip != b.ip {
      if v.ip == b.ip {
        DistinctIdentifies(bs, v, b);
      }
    }
  }

  /** What the buckets satisfy between operations; `latest` is the latest clock reading used. */
  ghost predicate Inv(bs: seq<Bucket>, h: History, latest: real, window: real, limit: int) {
    && Distinct(bs) && NoneEmpty(bs) && NoneAfter(bs, latest) && |bs| <= Max(0, limit)
    && Reflects(bs, h, window)
    && forall ip, f | f in h.Log(ip) :: f.seen <= latest
  }

  lemma NotYetSeen(h: History, latest: real, ip: string, now: real)
    requires forall o, f | f in h.Log(o) :: f.seen <= latest
    ensures forall o, f | f in h.Pruned(now).Log(o) :: f.seen <= Later(latest, now)
    ensures forall o, f | f in h.Record(ip, now).Log(o) :: f.seen <= Later(latest, now)
  {
    forall o, f | f in h.Pruned(now).Log(o) ensures f.seen <= Later(latest, now) {
      PrunedRemembers(h, now, o);
      SeenBound(h.Log(o), latest, now);
    }
    forall o, f | f in h.Record(ip, now).Log(o) ensures f.seen <= Later(latest, now) {
      RecordLog(h, ip, now, o);
    }
  }

  lemma {:induction false} SeenBound(fs: seq<Failure>, latest: real, now: real)
    requires forall f | f in fs :: f.seen <= latest
    ensures forall f | f in SeenAt(fs, now) :: f.seen <= Later(latest, now)
  {
    if fs != [] {
      SeenBound(fs[1..], latest, now);
    }
  }

  // ----- Operations on the values -----

  datatype Operation = Ask(ip: string, now: real) | Prune(now: real) | Fail(ip: string, now: real) | Forget(ip: string)

  function Apply(bs: seq<Bucket>, op: Operation, window: real, limit: int): seq<Bucket> {
    match op
    case Ask(_, now) => Pruned(bs, now, window, limit)
    case Prune(now) => Pruned(bs, now, window, limit)
    case Fail(ip, now) => PopAll(Grown(bs, ip, now, window), Victims(Grown(bs, ip, now, window), limit))
    case Forget(ip) => Pop(bs, ip)
  }

  ghost function Recorded(bs: seq<Bucket>, h: History, op: Operation, window: real, limit: int): History {
    match op
    case Ask(_, now) => h.Pruned(now)
    case Prune(now) => h.Pruned(now)
    case Fail(ip, now) =>
      h.Record(ip, now).Pruned(now).Evict(Ips(Victims(Grown(bs, ip, now, window), limit)))
    case Forget(ip) => h.Reset(ip)
  }

  function Clock(op: Operation, latest: real): real { if op.Forget? then latest else Later(latest, op.now) }

  lemma PruneKeepsInv(bs: seq<Bucket>, h: History, latest: real, now: real, window: real, limit: int)
    requires Inv(bs, h, latest, window, limit)
    ensures Pruned(bs, now, window, limit) == Live(bs, now, window)
    ensures Inv(Live(bs, now, window), h.Pruned(now), Later(latest, now), window, limit)
  {
    PrunedWithinLimit(bs, now, window, limit);
    LiveBound(bs, now, window, Later(latest, now));
    LiveReflects(bs, h, now, window);
    NotYetSeen(h, latest, "", now);
  }

  lemma EvictKeepsLog(h: History, ips: set<string>, t: real)
    requires forall o, f | f in h.Log(o) :: f.seen <= t
    ensures forall o, f | f in h.Evict(ips).Log(o) :: f.seen <= t
  {
    forall o ensures h.Evict(ips).Log(o) == h.Log(o) {
      EvictForgets(h, ips, o);
    }
  }

  lemma FailKeepsInv(bs: seq<Bucket>, h: History, latest: real, ip: string, now: real, window: real, limit: int)
    requires Inv(bs, h, latest, window, limit)
    ensures var op := Fail(ip, now);
            Inv(Apply(bs, op, window, limit), Recorded(bs, h, op, window, limit), Later(latest, now), window, limit)
  {
    var t := Later(latest, now);
    var current := Grown(bs, ip, now, window);
    var evicted := Victims(current, limit);
    var recorded := h.Record(ip, now).Pruned(now);
    GrownShape(bs, ip, now, window, t);
    GrownReflects(bs, h, ip, now, window);
    EvictsOldest(current, limit);
    VictimsAreBuckets(current, limit);
    EvictedReflects(current, evicted, recorded, window);
    NotYetSeen(h, latest, ip, now);
    NotYetSeen(h.Record(ip, now), t, ip, now);
    EvictKeepsLog(recorded, Ips(evicted), t);
  }

  lemma ForgetKeepsInv(bs: seq<Bucket>, h: History, latest: real, ip: string, window: real, limit: int)
    requires Inv(bs, h, latest, window, limit)
    ensures Inv(Pop(bs, ip), h.Reset(ip), latest, window, limit)
  {
    PopSubset(bs, ip);
    var after := h.Reset(ip);
    forall o
      ensures StampsOf(Pop(bs, ip), o) == Kept(after.Remembered(o), window)
      ensures forall f | f in after.Log(o) :: f.seen <= latest
    {
      PopStamps(bs, ip, o);
      assert after.Log(o) == if o == ip then [] else h.Log(o);
    }
  }

  lemma ApplyKeepsInv(bs: seq<Bucket>, h: History, latest: real, op: Operation, window: real, limit: int)
    requires Inv(bs, h, latest, window, limit)
    ensures Inv(Apply(bs, op, window, limit), Recorded(bs, h, op, window, limit), Clock(op, latest), window, limit)
  {
    match op
    case Ask(_, now) => PruneKeepsInv(bs, h, latest, now, window, limit);
    case Prune(now) => PruneKeepsInv(bs, h, latest, now, window, limit);
    case Fail(ip, now) => FailKeepsInv(bs, h, latest, ip, now, window, limit);
    case Forget(ip) => ForgetKeepsInv(bs, h, latest, ip, window, limit);
  }

  /** How a failure evicts: exactly the buckets in excess, none of which failed later than a
      survivor; the address itself goes only if every survivor failed later than it. */
  ghost predicate FairEviction(evicted: seq<Bucket>, after: seq<Bucket>, current: seq<Bucket>, ip: string, now: real,
                               window: real, limit: int) {
    && (limit >= 1 ==> |evicted| == Max(0, |current| - limit) <= 1)
    && (forall v, s | v in evicted && s in after :: LastStamp(v) <= LastStamp(s))
    && Ips(evicted) !! Ips(after)
    && (limit >= 1 && window > 0.0 ==>
          && (ip in Ips(evicted) || ip in Ips(after))
          && (ip in Ips(evicted) ==> forall s | s in after :: now < LastStamp(s)))
  }

  lemma FailureRecorded(bs: seq<Bucket>, ip: string, now: real, window: real, limit: int)
    requires Distinct(bs) && |bs| <= Max(0, limit)
    ensures var current := Grown(bs, ip, now, window);
            var evicted := Victims(current, limit);
            FairEviction(evicted, PopAll(current, evicted), current, ip, now, window, limit)
  {
    var current := Grown(bs, ip, now, window);
    var evicted := Victims(current, limit);
    GrownSize(bs, ip, now, window);
    EvictsOldest(current, limit);
    VictimsAreBuckets(current, limit);
    EvictionSeparates(current, evicted);
    if limit >= 1 && window > 0.0 {
      RecordedIsSpared(bs, ip, now, window, limit);
      RecordedIsPresent(bs, ip, now, window);
    }
  }

  lemma GrownSize(bs: seq<Bucket>, ip: string, now: real, window: real)
    requires Distinct(bs)
    ensures Distinct(Grown(bs, ip, now, window)) && |Grown(bs, ip, now, window)| <= |bs| + 1
  {
    var live := Live(bs, now, window);
    LiveIps(bs, now, window);
    AppendLaws(live, ip, now);
    if Absent(live, ip) {
      AppendAbsent(live, ip, now);
    }
    LiveIps(Append(live, ip, now), now, window);
  }

  lemma RecordedIsPresent(bs: seq<Bucket>, ip: string, now: real, window: real)
    requires Distinct(bs) && window > 0.0
    ensures ip in Ips(Grown(bs, ip, now, window))
  {
    GrownStamps(bs, ip, now, window, ip);
    assert Recent([now], now, window) == [now];
    PresentIfStamped(Grown(bs, ip, now, window), ip);
  }

  // ----- Whole runs -----

  function BucketsAfter(ops: seq<Operation>, window: real, limit: int): seq<Bucket> {
    if ops == [] then [] else Apply(BucketsAfter(ops[..|ops| - 1], window, limit), ops[|ops| - 1], window, limit)
  }

  ghost function HistoryAfter(ops: seq<Operation>, window: real, limit: int): History {
    if ops == [] then History(map[], map[])
    else
      var n := |ops| - 1;
      Recorded(BucketsAfter(ops[..n], window, limit), HistoryAfter(ops[..n], window, limit), ops[n], window, limit)
  }

  function LatestReading(ops: seq<Operation>, start: real): real {
    if ops == [] then start else Clock(ops[|ops| - 1], LatestReading(ops[..|ops| - 1], start))
  }

  /** The complete log: every failure of the address since it was last reset. */
  function FullLog(ops: seq<Operation>, ip: string): seq<real> {
    if ops == [] then []
    else
      var op, earlier := ops[|ops| - 1], FullLog(ops[..|ops| - 1], ip);
      if op.Fail? && op.ip == ip then earlier + [op.now] else if op == Forget(ip) then [] else earlier
  }

  lemma {:induction false} RunKeepsInv(ops: seq<Operation>, start: real, window: real, limit: int)
    ensures Inv(BucketsAfter(ops, window, limit), HistoryAfter(ops, window, limit), LatestReading(ops, start), window,
            limit)
  {
    if ops != [] {
      var n := |ops| - 1;
      RunKeepsInv(ops[..n], start, window, limit);
      ApplyKeepsInv(BucketsAfter(ops[..n], window, limit), HistoryAfter(ops[..n], window, limit),
                    LatestReading(ops[..n], start), ops[n], window, limit);
    }
  }

  lemma RecordedStamps(bs: seq<Bucket>, h: History, op: Operation, window: real, limit: int, ip: string)
    ensures Stamps(Recorded(bs, h, op, window, limit).Log(ip))
            == if op.Fail? && op.ip == ip then Stamps(h.Log(ip)) + [op.now]
               else if op == Forget(ip) then [] else Stamps(h.Log(ip))
  {
    match op
    case Ask(_, now) => PrunedStamps(h, now, ip);
    case Prune(now) => PrunedStamps(h, now, ip);
    case Fail(o, now) =>
      RecordStamps(h, o, now, ip);
      PrunedStamps(h.Record(o, now), now, ip);
      EvictForgets(h.Record(o, now).Pruned(now), Ips(Victims(Grown(bs, o, now, window), limit)), ip);
    case Forget(_) =>
  }

  lemma {:induction false} HistoryIsFullLog(ops: seq<Operation>, window: real, limit: int, ip: string)
    ensures Stamps(HistoryAfter(ops, window, limit).Log(ip)) == FullLog(ops, ip)
  {
    if ops != [] {
      var n := |ops| - 1;
      HistoryIsFullLog(ops[..n], window, limit, ip);
      RecordedStamps(BucketsAfter(ops[..n], window, limit), HistoryAfter(ops[..n], window, limit), ops[n], window,
          limit, ip);
    }
  }

  /** The addresses with a failure that is recent at `now`. */
  ghost function Active(ops: seq<Operation>, now: real, window: real): set<string> {
    set op | op in ops && op.Fail? && Recent(FullLog(ops, op.ip), now, window) != [] :: op.ip
  }

  lemma {:induction false} LoggedHasFailed(ops: seq<Operation>, ip: string)
    requires FullLog(ops, ip) != []
    ensures exists op :: op in ops && op.Fail? && op.ip == ip
  {
    var op := ops[|ops| - 1];
    if op.Fail? && op.ip == ip {
      assert op in ops;
    } else {
      LoggedHasFailed(ops[..|ops| - 1], ip);
      var earlier :| earlier in ops[..|ops| - 1] && earlier.Fail? && earlier.ip == ip;
      assert earlier in ops;
    }
  }

  lemma {:induction false} AsManyIps(bs: seq<Bucket>)
    requires Distinct(bs)
    ensures |Ips(bs)| == |bs|
  {
    if bs != [] {
      AsManyIps(bs[1..]);
      assert bs == [bs[0]] + bs[1..];
      assert Ips(bs) == Ips(bs[1..]) + {bs[0].ip};
    }
  }

  lemma {:induction false} StampedBuckets(bs: seq<Bucket>, b: Bucket)
    requires Distinct(bs) && NoneEmpty(bs) && b in bs
    ensures StampsOf(bs, b.ip) == b.stamps != []
  {
    if b != bs[0] {
      StampedBuckets(bs[1..], b);
    }
  }

  lemma Smaller(a: set<string>, b: set<string>)
    requires a <= b
    ensures |a| <= |b|
  {
    if a != b {
      assert b == a + (b - a);
    }
  }

  /** Every bucket a failure leaves belongs to an active address. */
  lemma BucketsAreActive(ops: seq<Operation>, window: real, limit: int)
    requires ops != [] && ops[|ops| - 1].Fail?
    ensures var n := |ops| - 1;
            |Grown(BucketsAfter(ops[..n], window, limit), ops[n].ip, ops[n].now, window)|
            <= |Active(ops, ops[n].now, window)|
  {
    var n := |ops| - 1;
    var ip, now := ops[n].ip, ops[n].now;
    var bs, h := BucketsAfter(ops[..n], window, limit), HistoryAfter(ops[..n], window, limit);
    var grown := Grown(bs, ip, now, window);
    RunKeepsInv(ops[..n], now, window, limit);
    GrownShape(bs, ip, now, window, LatestReading(ops, now));
    GrownReflects(bs, h, ip, now, window);
    forall b | b in grown ensures b.ip in Active(ops, now, window) {
      StampedBuckets(grown, b);
      PrunedRemembers(h.Record(ip, now), now, b.ip);
      BucketIsActive(ops, h, b.ip, window, limit);
    }
    AsManyIps(grown);
    Smaller(Ips(grown), Active(ops, now, window));
  }

  lemma BucketIsActive(ops: seq<Operation>, h: History, o: string, window: real, limit: int)
    requires ops != [] && ops[|ops| - 1].Fail? && h == HistoryAfter(ops[..|ops| - 1], window, limit)
    requires var op := ops[|ops| - 1];
             Kept(SeenAt(h.Record(op.ip, op.now).Remembered(o), op.now), window) != []
    ensures o in Active(ops, ops[|ops| - 1].now, window)
  {
    var op := ops[|ops| - 1];
    StampedIsRecent(h.Record(op.ip, op.now), o, op.now, window);
    HistoryIsFullLog(ops[..|ops| - 1], window, limit, o);
    RecordStamps(h, op.ip, op.now, o);
    LoggedHasFailed(ops, o);
  }

  lemma StampedIsRecent(h: History, ip: string, now: real, window: real)
    requires Kept(SeenAt(h.Remembered(ip), now), window) != []
    ensures Recent(Stamps(h.Log(ip)), now, window) != []
  {
    var fs, k := h.Log(ip), h.Forgotten(ip);
    KeptAtMostRecent(fs[k..], now, window);
    StampsAppend(fs[..k], fs[k..]);
    assert fs[..k] + fs[k..] == fs;
    RecentAppend(Stamps(fs[..k]), Stamps(fs[k..]), now, window);
  }

  /** Whenever the run records a failure, at most `limit` addresses are active. */
  ghost predicate RoomForActive(ops: seq<Operation>, window: real, limit: int) {
    ops == [] ||
    var last := ops[|ops| - 1];
    && RoomForActive(ops[..|ops| - 1], window, limit)
    && (last.Fail? ==> |Active(ops, last.now, window)| <= limit)
  }

  /** While at most `limit` addresses are active whenever a failure is recorded, no address is
      ever evicted and nothing is forgotten. */
  lemma {:induction false} NothingForgotten(ops: seq<Operation>, window: real, limit: int)
    requires RoomForActive(ops, window, limit)
    ensures forall ip :: HistoryAfter(ops, window, limit).Forgotten(ip) == 0
  {
    if ops != [] {
      var n := |ops| - 1;
      NothingForgotten(ops[..n], window, limit);
      if ops[n].Fail? {
        BucketsAreActive(ops, window, limit);
      }
      var bs, h := BucketsAfter(ops[..n], window, limit), HistoryAfter(ops[..n], window, limit);
      forall ip ensures Recorded(bs, h, ops[n], window, limit).Forgotten(ip) == 0 {
        StillNotForgotten(bs, h, ops[n], window, limit, ip);
      }
    }
  }

  lemma StillNotForgotten(bs: seq<Bucket>, h: History, op: Operation, window: real, limit: int, ip: string)
    requires h.Forgotten(ip) == 0
    requires op.Fail? ==> |Grown(bs, op.ip, op.now, window)| <= limit
    ensures Recorded(bs, h, op, window, limit).Forgotten(ip) == 0
  {
    match op
    case Ask(_, now) => PrunedRemembers(h, now, ip);
    case Prune(now) => PrunedRemembers(h, now, ip);
    case Fail(o, now) =>
      assert Ips(Victims(Grown(bs, o, now, window), limit)) == {};
      RecordedWithoutEviction(h, o, now, ip);
    case Forget(_) =>
  }

  lemma RecordedWithoutEviction(h: History, ip: string, now: real, o: string)
    requires h.Forgotten(o) == 0
    ensures h.Record(ip, now).Pruned(now).Evict({}).Forgotten(o) == 0
  {
    RecordForgotten(h, ip, now, o);
    PrunedRemembers(h.Record(ip, now), now, o);
  }

  lemma {:induction false} LatestBound(ops: seq<Operation>, now: real)
    requires forall op | op in ops && !op.Forget? :: op.now <= now
    ensures LatestReading(ops, now) <= now
  {
    if ops != [] {
      LatestBound(ops[..|ops| - 1], now);
      assert ops[|ops| - 1] in ops;
    }
  }

  /** The pruned buckets answer as the complete log does: after any run that never had more than
      `limit` active addresses and whose clock readings are not later than `now`, asking at `now`
      gives the wait computed from every failure of the address since its last reset. */
  lemma FullLogAnswer(ops: seq<Operation>, ip: string, now: real, maxAttempts: int, window: real, lockoutBase: real,
                      limit: int)
    requires RoomForActive(ops, window, limit)
    requires forall op | op in ops && !op.Forget? :: op.now <= now
    ensures WaitFor(StampsOf(Apply(BucketsAfter(ops, window, limit), Ask(ip, now), window, limit), ip), now,
            maxAttempts, lockoutBase)
            == WaitFor(Recent(FullLog(ops, ip), now, window), now, maxAttempts, lockoutBase)
  {
    var bs, h := BucketsAfter(ops, window, limit), HistoryAfter(ops, window, limit);
    RunKeepsInv(ops, now, window, limit);
    PruneKeepsInv(bs, h, LatestReading(ops, now), now, window, limit);
    NothingForgotten(ops, window, limit);
    LatestBound(ops, now);
    InOrderIsRecent(h, LatestReading(ops, now), ip, now, window);
    PrunedRemembers(h, now, ip);
    SeenShape(h.Log(ip), now);
    HistoryIsFullLog(ops, window, limit, ip);
  }

  // ----- The limiter -----

  class LoginRateLimiter {
    const maxAttempts: int
    const window: real
    const lockoutBase: real
    const maxTrackedIps: int
    var attempts: seq<Bucket>

    ghost var history: History
    ghost var latest: real

    ghost predicate Valid()
      reads this
    {
      Inv(attempts, history, latest, window, maxTrackedIps)
    }

    constructor (maxAttempts: int, window: real, lockoutBase: real, maxTrackedIps: int, start: real)
      ensures Valid() && attempts == [] && history == History(map[], map[]) && latest == start
      ensures this.maxAttempts == maxAttempts && this.window == window
      ensures this.lockoutBase == lockoutBase && this.maxTrackedIps == maxTrackedIps
    {
      this.maxAttempts, this.window, this.lockoutBase, this.maxTrackedIps :=
        maxAttempts, window, lockoutBase, maxTrackedIps;
      attempts, history, latest := [], History(map[], map[]), start;
    }

    /** The new state is the one the operation computes on the values. */
    twostate predicate Did(op: Operation)
      reads this
    {
      && attempts == Apply(old(attempts), op, window, maxTrackedIps)
      && history == Recorded(old(attempts), old(history), op, window, maxTrackedIps)
      && latest == Clock(op, old(latest))
    }

    method PruneLocked(now: real)
      modifies `attempts
      ensures attempts == Pruned(old(attempts), now, window, maxTrackedIps)
    {
      var entries, kept := attempts, [];
      for i := 0 to |entries|
        invariant kept + Live(entries[i..], now, window) == Live(entries, now, window)
      {
        var current := Recent(entries[i].stamps, now, window);
        if current != [] {
          kept := kept + [Bucket(entries[i].ip, current)];
        }
        assert entries[i..][1..] == entries[i + 1..];
      }
      assert kept == Live(entries, now, window);
      attempts := kept;
      var oldest := Victims(attempts, maxTrackedIps);
      for i := 0 to |oldest|
        invariant PopAll(attempts, oldest[i..]) == PopAll(kept, oldest)
      {
        assert oldest[i..][1..] == oldest[i + 1..];
        attempts := Pop(attempts, oldest[i].ip);
      }
      assert oldest[|oldest|..] == [];
    }

    method Prune(now: real)
      requires Valid()
      modifies this
      ensures Valid() && Did(Operation.Prune(now))
    {
      ghost var before := attempts;
      ApplyKeepsInv(before, history, latest, Operation.Prune(now), window, maxTrackedIps);
      PruneLocked(now);
      history, latest := history.Pruned(now), Later(latest, now);
    }

    /** The wait follows from the remembered failures that every prune so far, this one included,
        found recent. If no clock reading was later than `now` and nothing was forgotten, that is
        the answer of the complete log of the address. */
    method RetryAfter(ip: string, now: real) returns (r: Retry)
      requires Valid()
      modifies this
      ensures Valid() && Did(Ask(ip, now))
      ensures r == WaitFor(Kept(history.Remembered(ip), window), now, maxAttempts, lockoutBase)
      ensures old(latest) <= now && history.Forgotten(ip) == 0 ==>
                r == WaitFor(Recent(Stamps(history.Log(ip)), now, window), now, maxAttempts, lockoutBase)
      ensures Imposes(Kept(history.Remembered(ip), window), now, maxAttempts, lockoutBase, r)
      ensures r.IndexError? <==> maxAttempts <= 0 && Kept(history.Remembered(ip), window) == []
    {
      ghost var was := history;
      Prune(now);
      var stamps := StampsOf(attempts, ip);
      r := WaitFor(stamps, now, maxAttempts, lockoutBase);
      WaitIsImposed(stamps, now, maxAttempts, lockoutBase);
      InOrderIsRecent(was, old(latest), ip, now, window);
    }

    /** A failure evicts the buckets in excess, fairly, and everything else is remembered. */
    method RecordFailure(ip: string, now: real) returns (ghost evicted: seq<Bucket>)
      requires Valid()
      modifies this
      ensures Valid() && Did(Fail(ip, now))
      ensures history == old(history).Record(ip, now).Pruned(now).Evict(Ips(evicted))
      ensures |attempts| <= Max(0, maxTrackedIps)
      ensures FairEviction(evicted, attempts, Grown(old(attempts), ip, now, window), ip, now, window, maxTrackedIps)
      ensures old(latest) <= now && maxTrackedIps >= 1 && window > 0.0 ==> ip !in Ips(evicted) && ip in Ips(attempts)
    {
      ghost var before := attempts;
      ApplyKeepsInv(before, history, latest, Fail(ip, now), window, maxTrackedIps);
      FailureRecorded(before, ip, now, window, maxTrackedIps);
      GrownSize(before, ip, now, window);
      PrunedWithinLimit(before, now, window, maxTrackedIps);
      PruneLocked(now);
      attempts := Append(attempts, ip, now);
      PruneLocked(now);
      evicted := Victims(Grown(before, ip, now, window), maxTrackedIps);
      history := history.Record(ip, now).Pruned(now).Evict(Ips(evicted));
      latest := Later(latest, now);
      InOrderKeepsRecorded(evicted, before, attempts, ip, now, latest, window, maxTrackedIps);
    }

    method Reset(ip: string)
      requires Valid()
      modifies this
      ensures Valid() && Did(Forget(ip))
      ensures forall o :: StampsOf(attempts, o) == if o == ip then [] else StampsOf(old(attempts), o)
    {
      ApplyKeepsInv(attempts, history, latest, Forget(ip), window, maxTrackedIps);
      forall o ensures StampsOf(Pop(attempts, ip), o) == if o == ip then [] else StampsOf(attempts, o) {
        PopStamps(attempts, ip, o);
      }
      attempts := Pop(attempts, ip);
      history := history.Reset(ip);
    }
  }

  lemma NothingLost(fs: seq<Failure>, latest: real, now: real, window: real)
    requires latest <= now && forall f | f in fs :: f.seen <= latest
    ensures Kept(SeenAt(fs, now), window) == Recent(Stamps(fs), now, window)
  {
    KeptAtMostRecent(fs, now, window);
  }

  /** With a clock in order, what is kept of a log nothing was forgotten of is its recent part. */
  lemma InOrderIsRecent(h: History, latest: real, ip: string, now: real, window: real)
    requires forall o, f | f in h.Log(o) :: f.seen <= latest
    ensures latest <= now && h.Forgotten(ip) == 0 ==>
              Kept(h.Pruned(now).Remembered(ip), window) == Recent(Stamps(h.Pruned(now).Log(ip)), now, window)
  {
    PrunedRemembers(h, now, ip);
    SeenShape(h.Log(ip), now);
    if latest <= now && h.Forgotten(ip) == 0 {
      assert h.Remembered(ip) == h.Log(ip);
      NothingLost(h.Log(ip), latest, now, window);
    }
  }

  lemma InOrderKeepsRecorded(evicted: seq<Bucket>, before: seq<Bucket>, after: seq<Bucket>, ip: string, now: real,
                             latest: real, window: real, limit: int)
    requires limit >= 1 && window > 0.0
             ==> FairEviction(evicted, after, Grown(before, ip, now, window), ip, now, window, limit)
    requires after == PopAll(Grown(before, ip, now, window), Victims(Grown(before, ip, now, window), limit))
    requires evicted == Victims(Grown(before, ip, now, window), limit)
    requires Distinct(Grown(before, ip, now, window)) && NoneEmpty(after) && NoneAfter(after, latest)
    ensures latest <= now && limit >= 1 && window > 0.0 ==> ip !in Ips(evicted) && ip in Ips(after)
  {
    if latest <= now && limit >= 1 && window > 0.0 {
      EvictsOldest(Grown(before, ip, now, window), limit);
      LastNotAfter(after, now);
      if evicted != [] {
        assert after[0] in after;
      }
    }
  }

  lemma {:induction false} PopSubset(bs: seq<Bucket>, ip: string)
    requires Distinct(bs)
    ensures Distinct(Pop(bs, ip)) && |Pop(bs, ip)| <= |bs|
    ensures forall b | b in Pop(bs, ip) :: b in bs
  {
    if bs != [] && bs[0].ip != ip {
      PopSubset(bs[1..], ip);
    }
  }

  lemma {:induction false} PresentIfStamped(bs: seq<Bucket>, ip: string)
    requires StampsOf(bs, ip) != []
    ensures exists b :: b in bs && b.ip == ip
  {
    if bs[0].ip != ip {
      PresentIfStamped(bs[1..], ip);
    }
  }

  /** Within the limit a prune evicts nobody: it only drops expired failures. */
  lemma PrunedWithinLimit(bs: seq<Bucket>, now: real, window: real, limit: int)
    requires Distinct(bs) && |bs| <= Max(0, limit)
    ensures Pruned(bs, now, window, limit) == Live(bs, now, window)
    ensures Distinct(Live(bs, now, window)) && NoneEmpty(Live(bs, now, window))
    ensures |Live(bs, now, window)| <= |bs|
  {
    LiveIps(bs, now, window);
  }
}
