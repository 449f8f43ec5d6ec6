/** User buckets: usage, quotas and the check before an upload, and how far concurrent uploads can overshoot. */
module Buckets {
  import opened Prelude
  import opened MapSums

  const GIB: int := 1024 * 1024 * 1024
  const FREE_QUOTA: int := 2 * GIB

  datatype Info = Info(userId: string, tier: string, quotaBytes: int, usedBytes: int, fileCount: int)

  type Infos = map<string, Info>

  function TierQuota(tier: string): int {
    match tier
    case "creator" => 50 * GIB
    case "pro" => 200 * GIB
    case "studio" => 1024 * GIB
    case _ => FREE_QUOTA
  }

  /** What a user without a bucket record counts as. */
  function InfoOf(infos: Infos, userId: string): Info {
    if userId in infos then infos[userId] else Info(userId, "free", FREE_QUOTA, 0, 0)
  }

  function Used(infos: Infos, userId: string): int {
    InfoOf(infos, userId).usedBytes
  }

  function Count(infos: Infos, userId: string): int {
    InfoOf(infos, userId).fileCount
  }

  function Quota(infos: Infos, userId: string): int {
    InfoOf(infos, userId).quotaBytes
  }

  /** AddUsage: auto-creates the record and never goes negative. */
  function AddUsageTxn(infos: Infos, userId: string, bytes: int, files: int): Infos {
    var info := InfoOf(infos, userId);
    infos[userId := info.(usedBytes := Max(0, info.usedBytes + bytes), fileCount := Max(0, info.fileCount + files))]
  }

  function HasQuota(infos: Infos, userId: string, additional: int): bool {
    additional <= Quota(infos, userId) - Used(infos, userId)
  }

  ghost predicate NonNegative(infos: Infos) {
    forall u | u in infos :: infos[u].usedBytes >= 0 && infos[u].fileCount >= 0
  }

  class Store {
    var infos: Infos

    constructor ()
      ensures infos == map[]
    {
      infos := map[];
    }

    /** A record starts unused; a quota in GiB overrides the tier's. */
    method Create(userId: string, tier: string, quotaGb: int) returns (info: Option<Info>)
      modifies this
      ensures userId in old(infos) ==> info.None? && infos == old(infos)
      ensures userId !in old(infos) ==>
                && info.Some? && infos == old(infos)[userId := info.value]
                && info.value.userId == userId && info.value.tier == tier
                && info.value.usedBytes == 0 == info.value.fileCount
                && info.value.quotaBytes ==
                   (if quotaGb > 0 then quotaGb * 1073741824
                    else if tier == "creator" then 50 * 1073741824
                    else if tier == "pro" then 200 * 1073741824
                    else if tier == "studio" then 1024 * 1073741824
                    else 2 * 1073741824)
    {
      if userId in infos {
        return None;
      }
      var quota := TierQuota(tier);
      if quotaGb > 0 {
        quota := quotaGb * GIB;
      }
      var created := Info(userId, tier, quota, 0, 0);
      infos := infos[userId := created];
      return Some(created);
    }

    /** Changing tier or quota never touches the usage. */
    method Update(userId: string, tier: string, quotaGb: int) returns (info: Option<Info>)
      modifies this
      ensures info.None? <==> userId !in old(infos)
      ensures info.None? ==> infos == old(infos)
      ensures info.Some? ==>
                && infos == old(infos)[userId := info.value]
                && info.value.userId == old(infos)[userId].userId
                && info.value.usedBytes == Used(old(infos), userId) && info.value.fileCount == Count(old(infos), userId)
                && info.value.quotaBytes ==
                   (if quotaGb > 0 then quotaGb * 1073741824
                    else if tier == "" then old(infos)[userId].quotaBytes
                    else if tier == "creator" then 50 * 1073741824
                    else if tier == "pro" then 200 * 1073741824
                    else if tier == "studio" then 1024 * 1073741824
                    else 2 * 1073741824)
                && info.value.tier == (if tier != "" then tier else old(infos)[userId].tier)
    {
      if userId !in infos {
        return None;
      }
      var updated := infos[userId];
      if tier != "" {
        updated := updated.(tier := tier, quotaBytes := TierQuota(tier));
      }
      if quotaGb > 0 {
        updated := updated.(quotaBytes := quotaGb * GIB);
      }
      infos := infos[userId := updated];
      return Some(updated);
    }

    method AddUsage(userId: string, bytes: int, files: int)
      modifies this
      ensures infos == AddUsageTxn(old(infos), userId, bytes, files)
      ensures userId in infos && forall u | u != userId ::
                (u in infos <==> u in old(infos)) && (u in infos ==> infos[u] == old(infos)[u])
      ensures infos[userId] ==
              if userId in old(infos)
              then old(infos)[userId].(usedBytes := Max(0, old(infos)[userId].usedBytes + bytes),
                                       fileCount := Max(0, old(infos)[userId].fileCount + files))
              else Info(userId, "free", 2 * 1073741824, Max(0, bytes), Max(0, files))
      ensures old(NonNegative(infos)) ==> NonNegative(infos)
    {
      var info := if userId in infos then infos[userId] else Info(userId, "free", FREE_QUOTA, 0, 0);
      info := info.(usedBytes := info.usedBytes + bytes, fileCount := info.fileCount + files);
      if info.usedBytes < 0 {
        info := info.(usedBytes := 0);
      }
      if info.fileCount < 0 {
        info := info.(fileCount := 0);
      }
      infos := infos[userId := info];
    }

    method CheckQuota(userId: string, additional: int) returns (ok: bool, info: Info)
      ensures ok == HasQuota(infos, userId, additional) && info == InfoOf(infos, userId)
      ensures ok <==> if userId in infos then infos[userId].usedBytes + additional <= infos[userId].quotaBytes
                      else additional <= 2 * 1073741824
    {
      info := if userId in infos then infos[userId] else Info(userId, "free", FREE_QUOTA, 0, 0);
      var available := info.quotaBytes - info.usedBytes;
      ok := additional <= available;
    }
  }

  // ---- Uploads between their check and their accounting ----

  datatype Upload = Upload(userId: string, size: nat)

  /** The records and the uploads that passed the check and are not accounted yet. */
  datatype System = System(infos: Infos, inFlight: map<nat, Upload>)

  datatype Event =
    | Check(id: nat, userId: string, size: nat)
    | Account(id: nat)
    | Fail(id: nat)
    | Remove(userId: string, size: nat)

  /** An upload passes or is refused; an accepted one is later accounted or fails; deletions come in between. */
  ghost predicate Step(s: System, e: Event, s': System) {
    match e
    case Check(id, u, size) =>
      && id !in s.inFlight
      && s' == if HasQuota(s.infos, u, size) then s.(inFlight := s.inFlight[id := Upload(u, size)]) else s
    case Account(id) =>
      && id in s.inFlight
      && s' == System(AddUsageTxn(s.infos, s.inFlight[id].userId, s.inFlight[id].size, 1), s.inFlight - {id})
    case Fail(id) => id in s.inFlight && s' == s.(inFlight := s.inFlight - {id})
    case Remove(u, size) => s' == s.(infos := AddUsageTxn(s.infos, u, 0 - size as int, -1))
  }

  ghost function PendingOf(inFlight: map<nat, Upload>, userId: string): map<nat, int> {
    map id | id in inFlight && inFlight[id].userId == userId :: inFlight[id].size
  }

  /** Bytes of the user that passed the check and are not accounted yet. */
  ghost function Pending(s: System, userId: string): int {
    Sum(PendingOf(s.inFlight, userId))
  }

  /** The load allowed for one user: at most `n` uploads under way, none above `b` bytes. */
  ghost predicate Load(s: System, userId: string, n: nat, b: nat) {
    var pending := PendingOf(s.inFlight, userId);
    |pending| <= n && forall id | id in pending :: pending[id] <= b
  }

  lemma MulStep(x: nat, b: nat)
    ensures (x + 1) * b == x * b + b
  {
  }

  lemma {:induction false} MulMonotone(x: nat, y: nat, b: nat)
    requires x <= y
    ensures x * b <= y * b
    decreases y
  {
    if x < y {
      MulMonotone(x, y - 1, b);
      MulStep(y - 1, b);
    }
  }

  lemma {:induction false} SumBounded(m: map<nat, int>, b: nat)
    requires forall id | id in m :: 0 <= m[id] <= b
    ensures 0 <= Sum(m) <= |m| * b
    decreases |m|
  {
    hide Sum;
    if m == map[] {
      AllZero(m);
    } else {
      var id :| id in m;
      var rest := m - {id};
      SumRemove(m, id);
      SumBounded(rest, b);
      assert |m| == |rest| + 1;
      MulStep(|rest|, b);
    }
  }

  /** Accounted and pending bytes stay within the quota and the allowed slack. */
  ghost predicate Bounded(s: System, userId: string, quota: int, slack: int) {
    && NonNegative(s.infos) && Quota(s.infos, userId) == quota
    && Used(s.infos, userId) + Pending(s, userId) <= quota + slack
  }

  lemma PendingAdd(s: System, id: nat, u: string, size: nat, userId: string)
    requires id !in s.inFlight
    ensures var t := s.(inFlight := s.inFlight[id := Upload(u, size)]);
            && Pending(t, userId) == Pending(s, userId) + (if u == userId then size else 0)
            && |PendingOf(t.inFlight, userId)| == |PendingOf(s.inFlight, userId)| + (if u == userId then 1 else 0)
  {
    var before, after := PendingOf(s.inFlight, userId), PendingOf(s.inFlight[id := Upload(u, size)], userId);
    if u == userId {
      assert after == before[id := size];
      SumPut(before, id, size);
    } else {
      assert after == before;
    }
  }

  lemma PendingDrop(s: System, id: nat, userId: string)
    requires id in s.inFlight
    ensures var t := s.(inFlight := s.inFlight - {id});
            Pending(t, userId) ==
            Pending(s, userId) - (if s.inFlight[id].userId == userId then s.inFlight[id].size else 0)
  {
    var before, after := PendingOf(s.inFlight, userId), PendingOf(s.inFlight - {id}, userId);
    if s.inFlight[id].userId == userId {
      SumRemove(before, id);
      assert after == before - {id};
    } else {
      assert after == before;
    }
  }

  /** One more upload may start only beside fewer than `n` others. */
  lemma OthersBounded(s: System, userId: string, n: nat, b: nat)
    requires n >= 1 && |PendingOf(s.inFlight, userId)| <= n - 1
    requires Load(s, userId, n, b)
    ensures Pending(s, userId) <= (n - 1) * b
  {
    var others := PendingOf(s.inFlight, userId);
    SumBounded(others, b);
    MulMonotone(|others|, n - 1, b);
  }

  lemma CheckBounded(s: System, id: nat, u: string, size: nat, s': System, userId: string, quota: int, n: nat, b: nat)
    requires n >= 1 && Step(s, Check(id, u, size), s') && Bounded(s, userId, quota, (n - 1) * b)
    requires Load(s, userId, n, b) && Load(s', userId, n, b)
    ensures Bounded(s', userId, quota, (n - 1) * b)
  {
    hide PendingOf;
    PendingAdd(s, id, u, size, userId);
    if HasQuota(s.infos, u, size) && u == userId {
      OthersBounded(s, userId, n, b);
    }
  }

  /** Accounting moves bytes from pending to used; failing and removing only lessen. */
  lemma OtherStepBounded(s: System, e: Event, s': System, userId: string, quota: int, slack: int)
    requires Step(s, e, s') && Bounded(s, userId, quota, slack) && !e.Check?
    ensures Bounded(s', userId, quota, slack)
  {
    hide PendingOf, Sum;
    if e.Account? || e.Fail? {
      PendingDrop(s, e.id, userId);
    }
  }

  lemma StepBounded(s: System, e: Event, s': System, userId: string, quota: int, n: nat, b: nat)
    requires n >= 1 && Step(s, e, s') && Bounded(s, userId, quota, (n - 1) * b)
    requires Load(s, userId, n, b) && Load(s', userId, n, b)
    ensures Bounded(s', userId, quota, (n - 1) * b)
  {
    hide Bounded, Load;
    if e.Check? {
      CheckBounded(s, e.id, e.userId, e.size, s', userId, quota, n, b);
    } else {
      OtherStepBounded(s, e, s', userId, quota, (n - 1) * b);
    }
  }

  /** A run: states and the events between them, of any number of users in any interleaving. */
  datatype Run = Run(states: seq<System>, events: seq<Event>)

  ghost predicate IsRun(run: Run, userId: string, n: nat, b: nat) {
    && |run.states| == |run.events| + 1
    && (forall i | 0 <= i < |run.events| :: Step(run.states[i], run.events[i], run.states[i + 1]))
    && forall i | 0 <= i < |run.states| :: Load(run.states[i], userId, n, b)
  }

  ghost function Last(run: Run): System
    requires |run.states| > 0
  {
    run.states[|run.states| - 1]
  }

  lemma PendingNonNegative(s: System, userId: string, n: nat, b: nat)
    requires Load(s, userId, n, b)
    ensures 0 <= Pending(s, userId)
  {
    SumBounded(PendingOf(s.inFlight, userId), b);
  }

  lemma StartBounded(s: System, userId: string, n: nat, b: nat)
    requires n >= 1 && NonNegative(s.infos) && PendingOf(s.inFlight, userId) == map[]
    requires Used(s.infos, userId) <= Quota(s.infos, userId)
    ensures Bounded(s, userId, Quota(s.infos, userId), (n - 1) * b)
  {
    MulMonotone(0, n - 1, b);
  }

  /** Starting within the quota with nothing under way, a user's accounted and pending bytes together never exceed the
      quota by more than the other uploads under way can carry. With one upload at a time the quota holds. */
  lemma {:induction false} OvershootBound(run: Run, userId: string, n: nat, b: nat)
    requires n >= 1 && IsRun(run, userId, n, b)
    requires NonNegative(run.states[0].infos) && PendingOf(run.states[0].inFlight, userId) == map[]
    requires Used(run.states[0].infos, userId) <= Quota(run.states[0].infos, userId)
    ensures Bounded(Last(run), userId, Quota(run.states[0].infos, userId), (n - 1) * b)
    ensures n == 1 ==> Bounded(Last(run), userId, Quota(run.states[0].infos, userId), 0)
    ensures 0 <= Pending(Last(run), userId)
    decreases |run.events|
  {
    hide Bounded, Step, Sum, PendingOf;
    var quota := Quota(run.states[0].infos, userId);
    var k := |run.events|;
    if k == 0 {
      StartBounded(run.states[0], userId, n, b);
    } else {
      OvershootBound(Run(run.states[..k], run.events[..k - 1]), userId, n, b);
      StepBounded(run.states[k - 1], run.events[k - 1], run.states[k], userId, quota, n, b);
    }
    PendingNonNegative(Last(run), userId, n, b);
  }

  // ---- The bound is met ----

  /** Uploads numbered below `k`, each of `b` bytes. */
  ghost function Batch(userId: string, b: nat, k: nat): map<nat, Upload> {
    if k == 0 then map[] else Batch(userId, b, k - 1)[k - 1 := Upload(userId, b)]
  }

  lemma {:induction false} BatchPending(userId: string, b: nat, k: nat)
    ensures forall id | id in Batch(userId, b, k) :: id < k
    ensures |PendingOf(Batch(userId, b, k), userId)| == k
    ensures forall id | id in PendingOf(Batch(userId, b, k), userId) :: PendingOf(Batch(userId, b, k), userId)[id] == b
  {
    if k == 0 {
      assert PendingOf(map[], userId) == map[];
    } else {
      BatchPending(userId, b, k - 1);
      assert PendingOf(Batch(userId, b, k), userId) == PendingOf(Batch(userId, b, k - 1), userId)[k - 1 := b];
    }
  }

  ghost function Racing(userId: string, quota: int, used: int, count: nat, b: nat, k: nat): System {
    System(map[userId := Info(userId, "free", quota, used, count)], Batch(userId, b, k))
  }

  lemma RacingLoad(userId: string, quota: int, used: int, count: nat, b: nat, k: nat, n: nat)
    requires k <= n
    ensures Load(Racing(userId, quota, used, count, b, k), userId, n, b)
  {
    BatchPending(userId, b, k);
  }

  lemma OneMoreCheck(userId: string, quota: int, used: int, b: nat, k: nat)
    requires used + b <= quota
    ensures Step(Racing(userId, quota, used, 0, b, k), Check(k, userId, b), Racing(userId, quota, used, 0, b, k + 1))
  {
    BatchPending(userId, b, k);
  }

  lemma OneMoreAccount(userId: string, quota: int, used: int, count: nat, b: nat, k: nat)
    requires used >= 0 && k > 0
    ensures Step(Racing(userId, quota, used, count, b, k), Account(k - 1),
                 Racing(userId, quota, used + b, count + 1, b, k - 1))
  {
    BatchPending(userId, b, k - 1);
    assert Batch(userId, b, k) - {k - 1} == Batch(userId, b, k - 1);
  }

  lemma Extend(run: Run, e: Event, s: System, userId: string, n: nat, b: nat) returns (run': Run)
    requires IsRun(run, userId, n, b) && Step(Last(run), e, s) && Load(s, userId, n, b)
    ensures IsRun(run', userId, n, b) && run'.states[0] == run.states[0] && Last(run') == s
  {
    hide Step, Load;
    run' := Run(run.states + [s], run.events + [e]);
  }

  lemma {:induction false} CheckAll(userId: string, quota: int, b: nat, k: nat, n: nat) returns (run: Run)
    requires k <= n && b <= quota
    ensures IsRun(run, userId, n, b)
    ensures run.states[0] == Racing(userId, quota, quota - b, 0, b, 0)
    ensures Last(run) == Racing(userId, quota, quota - b, 0, b, k)
  {
    hide Step, Load, Racing;
    RacingLoad(userId, quota, quota - b, 0, b, k, n);
    if k == 0 {
      run := Run([Racing(userId, quota, quota - b, 0, b, 0)], []);
    } else {
      run := CheckAll(userId, quota, b, k - 1, n);
      OneMoreCheck(userId, quota, quota - b, b, k - 1);
      run := Extend(run, Check(k - 1, userId, b), Racing(userId, quota, quota - b, 0, b, k), userId, n, b);
    }
  }

  lemma {:induction false} AccountAll(userId: string, quota: int, b: nat, k: nat, n: nat) returns (run: Run)
    requires k <= n && b <= quota
    ensures IsRun(run, userId, n, b)
    ensures run.states[0] == Racing(userId, quota, quota - b, 0, b, 0)
    ensures Last(run) == Racing(userId, quota, quota - b + k * b, k, b, n - k)
  {
    hide Step, Load, Racing;
    if k == 0 {
      run := CheckAll(userId, quota, b, n, n);
    } else {
      run := AccountAll(userId, quota, b, k - 1, n);
      MulStep(k - 1, b);
      MulMonotone(0, k - 1, b);
      var used := quota - b + (k - 1) * b;
      OneMoreAccount(userId, quota, used, k - 1, b, n - k + 1);
      RacingLoad(userId, quota, used + b, k, b, n - k, n);
      run := Extend(run, Account(n - k), Racing(userId, quota, used + b, k, b, n - k), userId, n, b);
    }
  }

  /** `n` uploads of `b` bytes that all pass the check before any is accounted reach the bound exactly. */
  lemma OvershootAttained(userId: string, quota: int, n: nat, b: nat) returns (run: Run)
    requires n >= 1 && quota >= b
    ensures IsRun(run, userId, n, b)
    ensures NonNegative(run.states[0].infos) && PendingOf(run.states[0].inFlight, userId) == map[]
    ensures Used(run.states[0].infos, userId) <= quota == Quota(run.states[0].infos, userId)
    ensures Used(Last(run).infos, userId) == quota + (n - 1) * b
  {
    run := AccountAll(userId, quota, b, n, n);
    MulStep(n - 1, b);
    assert PendingOf(map[], userId) == map[];
  }
}
