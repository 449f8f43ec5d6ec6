/** Uploading and deleting over HTTP: file store, metadata and bucket usage updated one after the other, and the
    exact relation between a user's recorded usage and the objects that user owns. */
module Accounting {
  import opened Prelude
  import opened MapSums
  import opened Text
  import opened FlatKeys
  import Metadata
  import Buckets

  type Name = (string, string)
  type Objects = map<Name, Metadata.ObjectMeta>

  /** What the three stores hold. */
  datatype State = State(infos: Buckets.Infos, objects: Objects, files: map<Name, Bytes>)

  datatype Response = EmptyBody | QuotaExceeded | Created(size: nat) | NotFound | NoContent

  /** The user of a request: the header, or the second path segment of a bucket below `users/`. */
  function UserOf(bucket: string, header: string): string {
    if header == "" && |bucket| > 6 && bucket[..6] == "users/" then SplitTwo(bucket[6..], '/')[0] else header
  }

  // ---- The handlers on values ----

  function PutStep(s: State, n: Name, body: Bytes, user: string, expiresAt: Option<int>): (State, Response) {
    if body == [] then (s, EmptyBody)
    else if user != "" && !Buckets.HasQuota(s.infos, user, |body|) then (s, QuotaExceeded)
    else
      var meta := Metadata.ObjectMeta(n.0, n.1, |body|, user, expiresAt);
      (State(if user != "" then Buckets.AddUsageTxn(s.infos, user, |body|, 1) else s.infos,
             s.objects[n := meta], s.files[n := body]), Created(|body|))
  }

  function SizeBeforeDelete(s: State, n: Name, user: string): nat {
    var recorded := if n in s.objects then s.objects[n].size else 0;
    if recorded == 0 && user != "" && n in s.files then |s.files[n]| else recorded
  }

  function DeleteStep(s: State, n: Name, user: string): (State, Response) {
    if n !in s.files then (s, NotFound)
    else
      var size := SizeBeforeDelete(s, n, user);
      (State(if user != "" && size > 0 then Buckets.AddUsageTxn(s.infos, user, 0 - size as int, -1) else s.infos,
             s.objects - {n}, s.files - {n}), NoContent)
  }

  // ---- Usage against ownership ----

  ghost function OwnedSizes(objects: Objects, user: string): map<Name, int> {
    map n | n in objects && objects[n].userId == user :: objects[n].size
  }

  ghost function OwnedBytes(objects: Objects, user: string): int {
    Sum(OwnedSizes(objects, user))
  }

  ghost function OwnedCount(objects: Objects, user: string): int {
    |OwnedSizes(objects, user)|
  }

  /** Every object has its file, of its recorded size, and no body is empty. */
  ghost predicate FilesMatch(s: State) {
    && s.files.Keys == s.objects.Keys
    && forall n | n in s.objects :: s.objects[n].size == |s.files[n]| > 0
  }

  /** What overwriting has cost each user: bytes and files that are still recorded but no longer owned. */
  datatype Loss = Loss(bytes: nat, files: nat)

  /** A user's recorded usage is what the user owns plus what was lost. */
  ghost predicate Balanced(s: State, user: string, loss: Loss) {
    && Buckets.Used(s.infos, user) == OwnedBytes(s.objects, user) + loss.bytes
    && Buckets.Count(s.infos, user) == OwnedCount(s.objects, user) + loss.files
  }

  lemma PutSize<K, V>(m: map<K, V>, k: K, v: V)
    ensures |m[k := v]| == if k in m then |m| else |m| + 1
  {
    assert m[k := v].Keys == m.Keys + {k};
    assert |m.Keys| == |m| && |m[k := v].Keys| == |m[k := v]|;
  }

  lemma RemoveSize<K, V>(m: map<K, V>, k: K)
    requires k in m
    ensures |m - {k}| == |m| - 1
  {
    assert (m - {k}).Keys == m.Keys - {k};
    assert |m.Keys| == |m| && |(m - {k}).Keys| == |m - {k}|;
  }

  /** Taking away a key that may be missing. */
  lemma SumWithout<K>(m: map<K, int>, k: K)
    ensures Sum(m - {k}) == Sum(m) - if k in m then m[k] else 0
    ensures |m - {k}| == |m| - if k in m then 1 else 0
  {
    if k in m {
      SumRemove(m, k);
      RemoveSize(m, k);
    } else {
      assert m - {k} == m;
    }
  }

  lemma OwnedSizesPut(objects: Objects, n: Name, meta: Metadata.ObjectMeta, user: string)
    ensures var before, after := OwnedSizes(objects, user), OwnedSizes(objects[n := meta], user);
            after == if meta.userId == user then before[n := meta.size] else before - {n}
  {
  }

  lemma OwnedPut(objects: Objects, n: Name, meta: Metadata.ObjectMeta, user: string)
    ensures var had := n in objects && objects[n].userId == user;
            && OwnedBytes(objects[n := meta], user) ==
               OwnedBytes(objects, user) + (if meta.userId == user then meta.size else 0)
               - (if had then objects[n].size else 0)
            && OwnedCount(objects[n := meta], user) ==
               OwnedCount(objects, user) + (if meta.userId == user then 1 else 0) - (if had then 1 else 0)
  {
    var before := OwnedSizes(objects, user);
    assert n in before <==> n in objects && objects[n].userId == user;
    OwnedSizesPut(objects, n, meta, user);
    hide OwnedSizes;
    if meta.userId == user {
      SumPut(before, n, meta.size);
      PutSize(before, n, meta.size);
    } else {
      SumWithout(before, n);
    }
  }

  lemma OwnedDelete(objects: Objects, n: Name, user: string)
    requires n in objects
    ensures var had := objects[n].userId == user;
            && OwnedBytes(objects - {n}, user) == OwnedBytes(objects, user) - (if had then objects[n].size else 0)
            && OwnedCount(objects - {n}, user) == OwnedCount(objects, user) - (if had then 1 else 0)
  {
    var before := OwnedSizes(objects, user);
    assert n in before <==> objects[n].userId == user;
    assert OwnedSizes(objects - {n}, user) == before - {n};
    hide OwnedSizes;
    SumWithout(before, n);
  }

  lemma {:induction false} SumNonNegative(m: map<Name, int>)
    requires forall n | n in m :: m[n] >= 0
    ensures Sum(m) >= 0
    decreases |m|
  {
    if m != map[] {
      var n :| n in m;
      SumRemove(m, n);
      SumNonNegative(m - {n});
    }
  }

  lemma OwnsAtLeast(objects: Objects, n: Name)
    requires n in objects
    ensures OwnedBytes(objects, objects[n].userId) >= objects[n].size
    ensures OwnedCount(objects, objects[n].userId) >= 1
  {
    var sizes := OwnedSizes(objects, objects[n].userId);
    SumRemove(sizes, n);
    SumNonNegative(sizes - {n});
    RemoveSize(sizes, n);
  }

  /** A put of `n` costs its previous owner the old object, and nobody else anything. */
  ghost function LossAfterPut(s: State, n: Name, loss: Loss, user: string): Loss {
    if n in s.objects && s.objects[n].userId == user then Loss(loss.bytes + s.objects[n].size, loss.files + 1) else loss
  }

  /** Putting keeps the balance of every user; only the loss of an overwritten object's owner grows. */
  lemma PutBalanced(s: State, n: Name, body: Bytes, actor: string, expiresAt: Option<int>, user: string, loss: Loss)
    requires user != "" && Balanced(s, user, loss)
    ensures var (t, r) := PutStep(s, n, body, actor, expiresAt);
            Balanced(t, user, if r.Created? then LossAfterPut(s, n, loss, user) else loss)
  {
    OwnedPut(s.objects, n, Metadata.ObjectMeta(n.0, n.1, |body|, actor, expiresAt), user);
    SumNonNegative(OwnedSizes(s.objects, user));
    hide OwnedBytes, OwnedCount, OwnedSizes, Sum;
  }

  /** Deleting keeps every user's balance when the owner deletes; the subtraction never meets the clamp at zero. */
  lemma DeleteBalanced(s: State, n: Name, actor: string, user: string, loss: Loss)
    requires FilesMatch(s) && user != "" && Balanced(s, user, loss)
    requires n in s.objects ==> actor == s.objects[n].userId
    ensures var t := DeleteStep(s, n, actor).0;
            && Balanced(t, user, loss)
            && (n in s.objects ==>
                  Buckets.Used(t.infos, user) ==
                  Buckets.Used(s.infos, user) - if user == actor then s.objects[n].size else 0)
  {
    if n in s.objects {
      OwnedDelete(s.objects, n, user);
      OwnsAtLeast(s.objects, n);
      hide OwnedBytes, OwnedCount;
    }
  }

  datatype Op =
    | Put(name: Name, body: Bytes, user: string, expiresAt: Option<int>)
    | Delete(name: Name, user: string)

  function Apply(s: State, op: Op): State {
    match op
    case Put(n, body, user, expiresAt) => PutStep(s, n, body, user, expiresAt).0
    case Delete(n, user) => DeleteStep(s, n, user).0
  }

  lemma StepFilesMatch(s: State, op: Op)
    requires FilesMatch(s)
    ensures FilesMatch(Apply(s, op))
  {
  }

  lemma OwnedNonNegative(objects: Objects, u: string)
    ensures OwnedBytes(objects, u) >= 0 && OwnedCount(objects, u) >= 0
  {
    SumNonNegative(OwnedSizes(objects, u));
  }

  /** What a delete subtracts from whom. */
  lemma UsageAfterDelete(s: State, n: Name, actor: string, u: string)
    requires FilesMatch(s) && n in s.objects && u != ""
    ensures var t, size := DeleteStep(s, n, actor).0, s.objects[n].size;
            && t.objects == s.objects - {n}
            && Buckets.Used(t.infos, u) ==
               (if u == actor then Max(0, Buckets.Used(s.infos, u) - size) else Buckets.Used(s.infos, u))
            && Buckets.Count(t.infos, u) ==
               (if u == actor then Max(0, Buckets.Count(s.infos, u) - 1) else Buckets.Count(s.infos, u))
  {
  }

  lemma DeleteOneBalancedIff(s: State, n: Name, actor: string, u: string, loss: Loss)
    requires FilesMatch(s) && n in s.objects && u != "" && Balanced(s, u, loss)
    ensures Balanced(DeleteStep(s, n, actor).0, u, loss) <==>
            ((u == actor) == (u == s.objects[n].userId) ||
             (u == actor && Buckets.Used(s.infos, u) == 0 && Buckets.Count(s.infos, u) == 0))
  {
    OwnedDelete(s.objects, n, u);
    OwnedNonNegative(s.objects, u);
    if u == s.objects[n].userId {
      OwnsAtLeast(s.objects, n);
    }
    UsageAfterDelete(s, n, actor, u);
    hide OwnedBytes, OwnedCount, DeleteStep;
    assert DeleteStep(s, n, actor).0.objects == s.objects - {n};
  }

  /** Deleting somebody else's object breaks the balance. From a state balanced for everyone, a delete keeps everyone
      balanced exactly when the owner deletes, or the object has no owner and the deleter has nothing recorded. */
  lemma DeleteBalancedIff(s: State, n: Name, actor: string, losses: map<string, Loss>)
    requires FilesMatch(s) && n in s.objects && actor in losses && s.objects[n].userId in losses
    requires forall u | u in losses && u != "" :: Balanced(s, u, losses[u])
    ensures (forall u | u in losses && u != "" :: Balanced(DeleteStep(s, n, actor).0, u, losses[u])) <==>
            actor == s.objects[n].userId ||
            (s.objects[n].userId == "" && Buckets.Used(s.infos, actor) == 0 && Buckets.Count(s.infos, actor) == 0)
  {
    var t, owner := DeleteStep(s, n, actor).0, s.objects[n].userId;
    forall u | u in losses && u != ""
      ensures Balanced(t, u, losses[u]) <==>
              ((u == actor) == (u == owner) ||
               (u == actor && Buckets.Used(s.infos, u) == 0 && Buckets.Count(s.infos, u) == 0))
    {
      DeleteOneBalancedIff(s, n, actor, u, losses[u]);
    }
  }

  // ---- Runs ----

  function Run(start: Buckets.Infos, ops: seq<Op>): State {
    if ops == [] then State(start, map[], map[]) else Apply(Run(start, ops[..|ops| - 1]), ops[|ops| - 1])
  }

  /** Whether the last put of the run went through. */
  predicate Accepted(s: State, op: Op) {
    op.Put? && PutStep(s, op.name, op.body, op.user, op.expiresAt).1.Created?
  }

  ghost function LossOf(start: Buckets.Infos, ops: seq<Op>, user: string): Loss {
    if ops == [] then Loss(0, 0) else
      var before, op := ops[..|ops| - 1], ops[|ops| - 1];
      var s, loss := Run(start, before), LossOf(start, before, user);
      if Accepted(s, op) then LossAfterPut(s, op.name, loss, user) else loss
  }

  ghost predicate OwnersDelete(start: Buckets.Infos, ops: seq<Op>) {
    forall i | 0 <= i < |ops| && ops[i].Delete? ::
      var s := Run(start, ops[..i]);
      ops[i].name in s.objects ==> ops[i].user == s.objects[ops[i].name].userId
  }

  ghost predicate OverwritesAt(start: Buckets.Infos, ops: seq<Op>, i: nat, user: string)
    requires i < |ops|
  {
    var s := Run(start, ops[..i]);
    Accepted(s, ops[i]) && ops[i].name in s.objects && s.objects[ops[i].name].userId == user
  }

  /** Some accepted put of the run overwrote an object of the user. */
  ghost predicate Overwritten(start: Buckets.Infos, ops: seq<Op>, user: string) {
    exists i :: 0 <= i < |ops| && OverwritesAt(start, ops, i, user)
  }

  ghost predicate Unused(infos: Buckets.Infos) {
    forall u | u in infos :: infos[u].usedBytes == 0 == infos[u].fileCount
  }

  lemma StepBalanced(s: State, op: Op, user: string, loss: Loss)
    requires FilesMatch(s) && user != "" && Balanced(s, user, loss)
    requires op.Delete? && op.name in s.objects ==> op.user == s.objects[op.name].userId
    ensures Balanced(Apply(s, op), user, if Accepted(s, op) then LossAfterPut(s, op.name, loss, user) else loss)
  {
    hide Balanced, FilesMatch;
    match op
    case Put(n, body, actor, expiresAt) => PutBalanced(s, n, body, actor, expiresAt, user, loss);
    case Delete(n, actor) => DeleteBalanced(s, n, actor, user, loss);
  }

  lemma {:induction false} RunBalanced(start: Buckets.Infos, ops: seq<Op>, user: string)
    requires Unused(start) && OwnersDelete(start, ops) && user != ""
    ensures FilesMatch(Run(start, ops)) && Balanced(Run(start, ops), user, LossOf(start, ops, user))
  {
    if ops == [] {
      assert OwnedSizes(map[], user) == map[];
    } else {
      var k := |ops| - 1;
      var before := ops[..k];
      assert forall i | 0 <= i < k :: before[..i] == ops[..i];
      RunBalanced(start, before, user);
      hide Balanced, FilesMatch, Apply, Accepted;
      StepFilesMatch(Run(start, before), ops[k]);
      StepBalanced(Run(start, before), ops[k], user, LossOf(start, before, user));
    }
  }

  lemma OverwrittenStep(start: Buckets.Infos, ops: seq<Op>, user: string)
    requires ops != []
    ensures Overwritten(start, ops, user) <==>
            Overwritten(start, ops[..|ops| - 1], user) || OverwritesAt(start, ops, |ops| - 1, user)
    ensures forall i | 0 <= i < |ops| - 1 ::
              OverwritesAt(start, ops, i, user) <==> OverwritesAt(start, ops[..|ops| - 1], i, user)
  {
    var k := |ops| - 1;
    var before := ops[..k];
    forall i | 0 <= i < k
      ensures OverwritesAt(start, ops, i, user) <==> OverwritesAt(start, before, i, user)
    {
      assert before[..i] == ops[..i];
    }
    hide OverwritesAt;
    if Overwritten(start, before, user) {
      var i :| 0 <= i < |before| && OverwritesAt(start, before, i, user);
      assert OverwritesAt(start, ops, i, user);
    }
  }

  lemma {:induction false} LossMeansOverwritten(start: Buckets.Infos, ops: seq<Op>, user: string)
    requires Unused(start) && OwnersDelete(start, ops) && user != ""
    ensures var loss := LossOf(start, ops, user);
            && (loss.bytes == 0 <==> !Overwritten(start, ops, user))
            && (loss.files == 0 <==> !Overwritten(start, ops, user))
  {
    if ops != [] {
      var k := |ops| - 1;
      var before := ops[..k];
      assert forall i | 0 <= i < k :: before[..i] == ops[..i];
      LossMeansOverwritten(start, before, user);
      RunBalanced(start, before, user);
      OverwrittenStep(start, ops, user);
      hide Overwritten, OwnersDelete, Balanced, Run, Accepted;
    }
  }

  /** Over any run in which objects are deleted by their owners, a user's recorded bytes and files equal what the user
      owns plus exactly what accepted overwrites have taken; so usage never falls below ownership, and they agree
      precisely when none of the user's objects was ever overwritten. */
  lemma UsageConservation(start: Buckets.Infos, ops: seq<Op>, user: string)
    requires Unused(start) && OwnersDelete(start, ops) && user != ""
    ensures var s, loss := Run(start, ops), LossOf(start, ops, user);
            && Buckets.Used(s.infos, user) == OwnedBytes(s.objects, user) + loss.bytes
            && Buckets.Count(s.infos, user) == OwnedCount(s.objects, user) + loss.files
            && (Buckets.Used(s.infos, user) == OwnedBytes(s.objects, user) <==> !Overwritten(start, ops, user))
            && (Buckets.Count(s.infos, user) == OwnedCount(s.objects, user) <==> !Overwritten(start, ops, user))
  {
    RunBalanced(start, ops, user);
    LossMeansOverwritten(start, ops, user);
    hide Run, LossOf, Overwritten, OwnersDelete, FilesMatch, OwnedBytes, OwnedCount;
  }

  // ---- One request after another keeps the quota ----

  /** An upload is what the bound on concurrent uploads calls a check and then its account. */
  lemma PutIsCheckThenAccount(s: State, n: Name, body: Bytes, user: string, expiresAt: Option<int>)
    requires body != [] && user != ""
    ensures var (t, r) := PutStep(s, n, body, user, expiresAt);
            var before := Buckets.System(s.infos, map[]);
            var inFlight: map<nat, Buckets.Upload> :=
              if r.Created? then map[0 := Buckets.Upload(user, |body|)] else map[];
            var checked := Buckets.System(s.infos, inFlight);
            && Buckets.Step(before, Buckets.Check(0, user, |body|), checked)
            && (r.Created? ==> Buckets.Step(checked, Buckets.Account(0), Buckets.System(t.infos, map[])))
            && (r.QuotaExceeded? ==> t == s)
  {
    var upload: map<nat, Buckets.Upload> := map[0 := Buckets.Upload(user, |body|)];
    assert upload - {0} == map[];
  }

  lemma StepKeepsQuota(s: State, op: Op, user: string)
    requires Buckets.NonNegative(s.infos) && user != ""
    requires Buckets.Used(s.infos, user) <= Buckets.Quota(s.infos, user)
    ensures var t := Apply(s, op);
            && Buckets.NonNegative(t.infos)
            && Buckets.Used(t.infos, user) <= Buckets.Quota(t.infos, user) == Buckets.Quota(s.infos, user)
  {
    hide Sum;
  }

  /** Over any run of uploads and deletes, one after another, whoever starts within the quota stays within it. */
  lemma {:induction false} SequentialQuota(start: Buckets.Infos, ops: seq<Op>, user: string)
    requires Buckets.NonNegative(start) && user != ""
    requires Buckets.Used(start, user) <= Buckets.Quota(start, user)
    ensures var s := Run(start, ops);
            && Buckets.NonNegative(s.infos)
            && Buckets.Used(s.infos, user) <= Buckets.Quota(s.infos, user) == Buckets.Quota(start, user)
  {
    if ops != [] {
      hide Apply, Buckets.Used, Buckets.Quota, Buckets.NonNegative;
      SequentialQuota(start, ops[..|ops| - 1], user);
      StepKeepsQuota(Run(start, ops[..|ops| - 1]), ops[|ops| - 1], user);
    }
  }

  /** Whose request it is: the header's user, or else the path segment after `users/`, up to the next slash. */
  lemma UserMeaning(bucket: string, header: string, id: string, rest: string)
    ensures header != "" ==> UserOf(bucket, header) == header
    ensures !("users/" <= bucket) ==> UserOf(bucket, "") == ""
    ensures '/' !in id ==> UserOf("users/" + id, "") == id && UserOf("users/" + id + "/" + rest, "") == id
  {
    if "users/" <= bucket {
      assert bucket[..6] == "users/";
    }
    if '/' !in id {
      assert ("users/" + id)[6..] == id;
      assert ("users/" + id + "/" + rest)[6..] == id + ['/'] + rest;
      assert ("users/" + id)[..6] == "users/" && ("users/" + id + "/" + rest)[..6] == "users/";
      SplitTwoInverts(id, '/', rest);
    }
  }

  // ---- What the metadata store reports ----

  /** What an operation asks of the metadata: a put for an accepted upload, a delete if the file is found. */
  function MetaOp(s: State, op: Op): seq<Metadata.Op> {
    match op
    case Put(n, body, user, expiresAt) =>
      if Accepted(s, op) then [Metadata.Put(Metadata.ObjectMeta(n.0, n.1, |body|, user, expiresAt))] else []
    case Delete(n, _) => if n in s.files then [Metadata.Delete(n.0, n.1)] else []
  }

  function MetaOps(start: Buckets.Infos, ops: seq<Op>): seq<Metadata.Op> {
    if ops == [] then [] else
      var before := ops[..|ops| - 1];
      MetaOps(start, before) + MetaOp(Run(start, before), ops[|ops| - 1])
  }

  ghost predicate OpWithin(op: Op, r: Metadata.Realm) {
    op.name in r.names && (op.user != "" ==> op.user in r.users)
  }

  predicate KeepsOwner(s: State, op: Op) {
    Accepted(s, op) && op.name in s.objects && s.objects[op.name].userId != "" ==> s.objects[op.name].userId == op.user
  }

  ghost predicate KeepsOwnerAt(start: Buckets.Infos, ops: seq<Op>, i: nat)
    requires i < |ops|
  {
    KeepsOwner(Run(start, ops[..i]), ops[i])
  }

  /** No accepted put of the run takes an object that has an owner from that owner. */
  ghost predicate OwnersKept(start: Buckets.Infos, ops: seq<Op>) {
    forall i | 0 <= i < |ops| :: KeepsOwnerAt(start, ops, i)
  }

  lemma RunViewMore(before: seq<Metadata.Op>, more: seq<Metadata.Op>)
    requires |more| <= 1
    ensures Metadata.RunView(before + more) ==
            if more == [] then Metadata.RunView(before) else Metadata.ApplyView(Metadata.RunView(before), more[0])
  {
    if more == [] {
      assert before + more == before;
    } else {
      assert (before + more)[..|before|] == before;
    }
  }

  lemma MetaOpFollows(s: State, op: Op, view: Metadata.View)
    requires FilesMatch(s) && view.objects == s.objects
    ensures var more := MetaOp(s, op);
            && |more| <= 1
            && Apply(s, op).objects == if more == [] then s.objects else Metadata.ApplyView(view, more[0]).objects
  {
  }

  lemma MetaOpWithin(s: State, op: Op, r: Metadata.Realm)
    requires OpWithin(op, r)
    ensures forall m | m in MetaOp(s, op) :: Metadata.OpWithin(m, r)
  {
    assert op.name == (op.name.0, op.name.1);
  }

  /** The metadata's own runs follow the server's: the same objects, and files beside them. */
  lemma {:induction false} MetaFollows(start: Buckets.Infos, ops: seq<Op>, r: Metadata.Realm)
    requires forall op | op in ops :: OpWithin(op, r)
    ensures FilesMatch(Run(start, ops))
    ensures Metadata.RunView(MetaOps(start, ops)).objects == Run(start, ops).objects
    ensures forall op | op in MetaOps(start, ops) :: Metadata.OpWithin(op, r)
  {
    if ops != [] {
      var before, op := ops[..|ops| - 1], ops[|ops| - 1];
      assert op in ops;
      MetaFollows(start, before, r);
      var s, meta := Run(start, before), MetaOps(start, before);
      MetaOpWithin(s, op, r);
      StepFilesMatch(s, op);
      MetaOpFollows(s, op, Metadata.RunView(meta));
      hide MetaOp, Apply, FilesMatch, Metadata.ApplyView, Metadata.OpWithin;
      RunViewMore(meta, MetaOp(s, op));
    }
  }

  /** An index key leads the user to an object that now belongs to someone else. */
  ghost predicate StaleEntry(view: Metadata.View, user: string) {
    exists n :: n in Metadata.Shown(view, user) && view.objects[n].userId != user
  }

  lemma StaleMeansMore(view: Metadata.View, user: string)
    requires Metadata.Owned(view, user) <= Metadata.Shown(view, user)
    ensures Metadata.Owned(view, user) == Metadata.Shown(view, user) <==> !StaleEntry(view, user)
  {
    hide Metadata.IsIndexKey;
    if StaleEntry(view, user) {
      var n :| n in Metadata.Shown(view, user) && view.objects[n].userId != user;
      assert n !in Metadata.Owned(view, user);
    }
  }

  lemma SubsetCount<T>(part: set<T>, whole: set<T>)
    requires part <= whole
    ensures |part| <= |whole| && (|part| == |whole| <==> part == whole)
  {
    assert whole == part + (whole - part);
  }

  /** A part of a sum of positive numbers. */
  lemma {:induction false} SubsetSum(part: map<Name, int>, whole: map<Name, int>)
    requires part.Keys <= whole.Keys && (forall n | n in part :: part[n] == whole[n])
    requires forall n | n in whole :: whole[n] > 0
    ensures Sum(part) <= Sum(whole) && (Sum(part) == Sum(whole) <==> part.Keys == whole.Keys)
    decreases |whole|
  {
    hide Sum;
    if whole == map[] {
      assert part == map[];
    } else {
      var n :| n in whole;
      SumRemove(whole, n);
      if n in part {
        SumRemove(part, n);
        assert part.Keys == (part - {n}).Keys + {n} && whole.Keys == (whole - {n}).Keys + {n};
        SubsetSum(part - {n}, whole - {n});
      } else {
        SubsetSum(part, whole - {n});
      }
    }
  }

  lemma ShownVersusOwned(view: Metadata.View, user: string)
    requires Metadata.Owned(view, user) <= Metadata.Shown(view, user)
    requires forall n | n in view.objects :: view.objects[n].size > 0
    ensures var shown := Metadata.Shown(view, user);
            var total := Sum(Metadata.SizesOf(view, shown));
            && total >= OwnedBytes(view.objects, user) && |shown| >= OwnedCount(view.objects, user)
            && (total == OwnedBytes(view.objects, user) <==> !StaleEntry(view, user))
            && (|shown| == OwnedCount(view.objects, user) <==> !StaleEntry(view, user))
  {
    hide Metadata.IsIndexKey, Sum, StaleEntry;
    var shown, owned := Metadata.Shown(view, user), Metadata.Owned(view, user);
    StaleMeansMore(view, user);
    var part, whole := OwnedSizes(view.objects, user), Metadata.SizesOf(view, shown);
    assert part.Keys == owned && whole.Keys == shown && |part.Keys| == |part|;
    SubsetCount(owned, shown);
    SubsetSum(part, whole);
  }

  /** With the objects all non-empty, what the metadata store reports for a user is what the user owns exactly when the
      user has no stale index entry; otherwise it is more. */
  lemma ReportedIsOwned(db: Metadata.Db, view: Metadata.View, user: string)
    requires Metadata.Represents(db, view) && user != ""
    requires forall n | n in view.objects :: view.objects[n].size > 0
    ensures var listing := Metadata.ListByUserTxn(db, user);
            && Metadata.TotalSize(listing) >= OwnedBytes(view.objects, user)
            && |listing| >= OwnedCount(view.objects, user)
            && (Metadata.TotalSize(listing) == OwnedBytes(view.objects, user) <==> !StaleEntry(view, user))
            && (|listing| == OwnedCount(view.objects, user) <==> !StaleEntry(view, user))
  {
    hide Metadata.Represents, Metadata.ListByUserTxn, Metadata.ShowsExactly, StaleEntry, OwnedBytes, OwnedCount,
         Metadata.Shown, Metadata.Owned, Metadata.SizesOf, Sum, Metadata.TotalSize, Metadata.IsIndexKey;
    Metadata.ListByUserMeaning(db, view, user);
    Metadata.ListByUserShows(db, view, user);
    Metadata.ListingTotal(Metadata.ListByUserTxn(db, user), view, Metadata.Shown(view, user));
    ShownVersusOwned(view, user);
  }

  lemma ExactOp(s: State, op: Op, view: Metadata.View)
    requires Metadata.PlainView(view) && Metadata.IndexExact(view) && view.objects == s.objects && KeepsOwner(s, op)
    ensures forall m | m in MetaOp(s, op) :: Metadata.IndexExact(Metadata.ApplyView(view, m))
  {
    hide Metadata.PlainView, Metadata.IndexExact, Metadata.PutView, Metadata.DeleteView;
    match op
    case Put(n, body, user, expiresAt) =>
      Metadata.PutKeepsIndexExactIff(view, Metadata.ObjectMeta(n.0, n.1, |body|, user, expiresAt));
    case Delete(n, _) => Metadata.DeleteKeepsIndexExact(view, n);
  }

  lemma {:induction false} IndexStaysExact(start: Buckets.Infos, ops: seq<Op>, r: Metadata.Realm)
    requires Metadata.KeysApart(r) && (forall op | op in ops :: OpWithin(op, r)) && OwnersKept(start, ops)
    ensures Metadata.IndexExact(Metadata.RunView(MetaOps(start, ops)))
  {
    if ops != [] {
      var k := |ops| - 1;
      var before := ops[..k];
      forall i | 0 <= i < k
        ensures KeepsOwnerAt(start, before, i)
      {
        assert before[..i] == ops[..i] && KeepsOwnerAt(start, ops, i);
      }
      IndexStaysExact(start, before, r);
      MetaFollows(start, before, r);
      assert KeepsOwnerAt(start, ops, k);
      var s, meta := Run(start, before), MetaOps(start, before);
      Metadata.RunRepresents(meta, r);
      Metadata.IsPlain(Metadata.Run(meta), Metadata.RunView(meta));
      MetaOpFollows(s, ops[k], Metadata.RunView(meta));
      hide KeepsOwnerAt, OwnersKept, Metadata.PlainView, Metadata.IndexExact, Metadata.Represents, FilesMatch, MetaOp,
           Metadata.KeysApart;
      ExactOp(s, ops[k], Metadata.RunView(meta));
      RunViewMore(meta, MetaOp(s, ops[k]));
    }
  }

  lemma ExactMeansNoStale(db: Metadata.Db, view: Metadata.View, r: Metadata.Realm, user: string)
    requires Metadata.Represents(db, view) && Metadata.KeysApart(r) && Metadata.ViewWithin(view, r)
    requires Metadata.IndexExact(view) && user in r.users && user != ""
    ensures !StaleEntry(view, user)
  {
    Metadata.WithinUnmixed(view, r, user);
    Metadata.UnmixedShows(view, user);
    Metadata.IsPlain(db, view);
    Metadata.ExactOwned(view, user);
    hide Metadata.Represents, Metadata.KeysApart, Metadata.Shown, Metadata.Indexed, Metadata.IndexExact;
    StaleMeansMore(view, user);
  }

  /** The user has put `n` and, since the last time, not deleted it. */
  ghost predicate PutNotDeleted(start: Buckets.Infos, ops: seq<Op>, user: string, n: Name) {
    ops != [] &&
      var before, op := ops[..|ops| - 1], ops[|ops| - 1];
      var s := Run(start, before);
      if op.name != n || op.user != user then PutNotDeleted(start, before, user, n)
      else if op.Put? then Accepted(s, op) || PutNotDeleted(start, before, user, n)
      else n !in s.files && PutNotDeleted(start, before, user, n)
  }

  /** Some object that the user put and has not deleted since now belongs to someone else. */
  ghost predicate Dispossessed(start: Buckets.Infos, ops: seq<Op>, user: string) {
    var s := Run(start, ops);
    exists n | n in s.objects :: s.objects[n].userId != user && PutNotDeleted(start, ops, user, n)
  }

  lemma IndexOp(s: State, op: Op, view: Metadata.View, user: string, n: Name)
    requires FilesMatch(s) && view.objects == s.objects && user != ""
    requires op.Delete? && op.name in s.objects ==> op.user == s.objects[op.name].userId
    ensures var more := MetaOp(s, op);
            (user, n) in (if more == [] then view else Metadata.ApplyView(view, more[0])).index <==>
            if op.name != n || op.user != user then (user, n) in view.index
            else if op.Put? then Accepted(s, op) || (user, n) in view.index
            else n !in s.files && (user, n) in view.index
  {
    assert op.name == (op.name.0, op.name.1);
  }

  /** When owners delete, the index records for a user exactly what that user put and has not deleted since. */
  lemma {:induction false} IndexRecords(start: Buckets.Infos, ops: seq<Op>, r: Metadata.Realm, user: string, n: Name)
    requires (forall op | op in ops :: OpWithin(op, r)) && OwnersDelete(start, ops) && user != ""
    ensures (user, n) in Metadata.RunView(MetaOps(start, ops)).index <==> PutNotDeleted(start, ops, user, n)
  {
    if ops != [] {
      var k := |ops| - 1;
      var before, op := ops[..k], ops[k];
      assert forall i | 0 <= i < k :: before[..i] == ops[..i];
      IndexRecords(start, before, r, user, n);
      MetaFollows(start, before, r);
      var s, meta := Run(start, before), MetaOps(start, before);
      MetaOpFollows(s, op, Metadata.RunView(meta));
      assert op.Delete? && op.name in s.objects ==> op.user == s.objects[op.name].userId;
      hide OwnersDelete, FilesMatch, Metadata.ApplyView, Accepted;
      IndexOp(s, op, Metadata.RunView(meta), user, n);
      hide MetaOp;
      RunViewMore(meta, MetaOp(s, op));
    }
  }

  lemma StaleMeansDispossessed(start: Buckets.Infos, ops: seq<Op>, r: Metadata.Realm, user: string)
    requires Metadata.KeysApart(r) && (forall op | op in ops :: OpWithin(op, r)) && OwnersDelete(start, ops)
    requires user in r.users && user != ""
    ensures StaleEntry(Metadata.RunView(MetaOps(start, ops)), user) <==> Dispossessed(start, ops, user)
  {
    MetaFollows(start, ops, r);
    var meta := MetaOps(start, ops);
    Metadata.RunRepresents(meta, r);
    var view := Metadata.RunView(meta);
    hide Metadata.KeysApart, Metadata.Represents, Metadata.Run, Metadata.RunView, Metadata.ViewWithin, Metadata.Shown,
         Metadata.Unmixed, MetaOps, OwnersDelete, OpWithin, PutNotDeleted, FilesMatch, Run;
    Metadata.WithinUnmixed(view, r, user);
    Metadata.UnmixedShows(view, user);
    forall n
      ensures (user, n) in view.index <==> PutNotDeleted(start, ops, user, n)
    {
      IndexRecords(start, ops, r, user, n);
    }
    forall n | n in view.objects
      ensures n in Metadata.Shown(view, user) <==> (user, n) in view.index
    {
      if (user, n) in view.index {
        assert n in Metadata.Indexed(view, user);
      }
    }
  }

  /** End to end, over any run in which objects are deleted by their owners: a user's recorded bytes and files are what
      the metadata store reports for that user plus what overwrites have taken, exactly when no object that the user put
      and has not deleted since belongs to someone else; and so it is when no accepted put takes an object from its
      owner. */
  lemma UsageIsReported(start: Buckets.Infos, ops: seq<Op>, r: Metadata.Realm, user: string)
    requires Unused(start) && OwnersDelete(start, ops)
    requires Metadata.KeysApart(r) && (forall op | op in ops :: OpWithin(op, r)) && user in r.users && user != ""
    ensures var s, loss, meta := Run(start, ops), LossOf(start, ops, user), MetaOps(start, ops);
            var listing := Metadata.ListByUserTxn(Metadata.Run(meta), user);
            && (Buckets.Used(s.infos, user) == Metadata.TotalSize(listing) + loss.bytes <==>
                  !Dispossessed(start, ops, user))
            && (Buckets.Count(s.infos, user) == |listing| + loss.files <==> !Dispossessed(start, ops, user))
            && (OwnersKept(start, ops) ==> !Dispossessed(start, ops, user))
  {
    var meta := MetaOps(start, ops);
    MetaFollows(start, ops, r);
    Metadata.RunRepresents(meta, r);
    UsageConservation(start, ops, user);
    StaleMeansDispossessed(start, ops, r, user);
    var view := Metadata.RunView(meta);
    assert forall n | n in view.objects :: view.objects[n].size > 0;
    hide Metadata.Represents, Metadata.Run, Metadata.RunView, Metadata.ListByUserTxn, Metadata.KeysApart,
         Metadata.ViewWithin, MetaOps, Run, LossOf, OwnersKept, OwnersDelete, Overwritten, FilesMatch, OwnedBytes,
         OwnedCount, StaleEntry, Dispossessed;
    if OwnersKept(start, ops) {
      IndexStaysExact(start, ops, r);
      ExactMeansNoStale(Metadata.Run(meta), view, r, user);
    }
    ReportedIsOwned(Metadata.Run(meta), view, user);
  }

  lemma PutKeeps(s: State, n: Name, body: Bytes, actor: string, expiresAt: Option<int>)
    ensures var (t, r) := PutStep(s, n, body, actor, expiresAt);
            && (FilesMatch(s) ==> FilesMatch(t))
            && forall u, loss | u != "" && Balanced(s, u, loss) ::
                 Balanced(t, u, if r.Created? then LossAfterPut(s, n, loss, u) else loss)
  {
    if FilesMatch(s) {
      StepFilesMatch(s, Put(n, body, actor, expiresAt));
    }
    hide FilesMatch, Balanced, LossAfterPut;
    forall u, loss | u != "" && Balanced(s, u, loss)
      ensures var (t, r) := PutStep(s, n, body, actor, expiresAt);
              Balanced(t, u, if r.Created? then LossAfterPut(s, n, loss, u) else loss)
    {
      PutBalanced(s, n, body, actor, expiresAt, u, loss);
    }
  }

  predicate DeletesOwn(s: State, n: Name, actor: string) {
    n in s.objects ==> actor == s.objects[n].userId
  }

  lemma DeleteKeeps(s: State, n: Name, actor: string)
    ensures FilesMatch(s) ==> FilesMatch(DeleteStep(s, n, actor).0)
    ensures FilesMatch(s) && DeletesOwn(s, n, actor) ==>
              forall u, loss | u != "" && Balanced(s, u, loss) :: Balanced(DeleteStep(s, n, actor).0, u, loss)
  {
    if FilesMatch(s) {
      StepFilesMatch(s, Delete(n, actor));
      if DeletesOwn(s, n, actor) {
        hide FilesMatch, Balanced;
        forall u, loss | u != "" && Balanced(s, u, loss)
          ensures Balanced(DeleteStep(s, n, actor).0, u, loss)
        {
          DeleteBalanced(s, n, actor, u, loss);
        }
      }
    }
  }

  /** The object names and users whose keys have no colons to confuse. */
  ghost function ColonFreeRealm(): Metadata.Realm {
    Metadata.Realm(iset n: Name | ColonFree(n.0), iset u | ColonFree(u))
  }

  /** A request to a bucket without colons, by a user without colons, is within that realm. */
  lemma ColonFreeRequest(bucket: string, key: string, header: string)
    requires ColonFree(bucket) && ColonFree(header)
    ensures var r := ColonFreeRealm();
            Metadata.KeysApart(r) && (bucket, key) in r.names && UserOf(bucket, header) in r.users
  {
    Metadata.ColonFreeApart();
    hide Metadata.KeysApart;
    if header == "" && |bucket| > 6 && bucket[..6] == "users/" {
      var rest := bucket[6..];
      var parts := SplitTwo(rest, '/');
      assert forall i | 0 <= i < |parts[0]| :: parts[0][i] == rest[i] == bucket[6 + i];
    }
  }

  lemma DeleteWithin(view: Metadata.View, r: Metadata.Realm, n: Name)
    requires Metadata.ViewWithin(view, r)
    ensures Metadata.ViewWithin(Metadata.DeleteView(view, n), r)
  {
  }

  // ---- The server ----

  /** The HTTP layer over its stores. `view` is what the metadata key space stands for, `realm` what requests are
      about. */
  class Server {
    const metas: Metadata.Store
    const buckets: Buckets.Store
    var files: map<Name, Bytes>
    ghost var view: Metadata.View
    ghost const realm: Metadata.Realm

    ghost predicate Valid()
      reads this, metas
    {
      Metadata.Represents(metas.db, view) && Metadata.KeysApart(realm) && Metadata.ViewWithin(view, realm)
    }

    ghost function Value(): State
      reads this, buckets
    {
      State(buckets.infos, view.objects, files)
    }

    constructor (buckets: Buckets.Store, ghost realm: Metadata.Realm)
      requires Metadata.KeysApart(realm)
      ensures Valid() && this.buckets == buckets && this.realm == realm && fresh(metas)
      ensures Value() == State(buckets.infos, map[], map[])
    {
      this.metas := new Metadata.Store();
      this.buckets := buckets;
      this.realm := realm;
      files, view := map[], Metadata.NOTHING;
    }

    method PutObject(bucket: string, key: string, body: Bytes, header: string, expiresAt: Option<int>)
      returns (r: Response)
      requires Valid() && (bucket, key) in realm.names
      requires UserOf(bucket, header) != "" ==> UserOf(bucket, header) in realm.users
      modifies this, metas, buckets
      ensures Valid()
      ensures (Value(), r) == PutStep(old(Value()), (bucket, key), body, UserOf(bucket, header), expiresAt)
      ensures r.EmptyBody? <==> body == []
      ensures var user, infos := UserOf(bucket, header), old(buckets.infos);
              r.QuotaExceeded? <==>
                && body != [] && user != ""
                && if user in infos then infos[user].usedBytes + |body| > infos[user].quotaBytes
                   else |body| > 2 * 1073741824
      ensures r.EmptyBody? || r.QuotaExceeded? ==>
                && files == old(files) && view == old(view) && metas.db == old(metas.db)
                && buckets.infos == old(buckets.infos)
      ensures !r.EmptyBody? && !r.QuotaExceeded? ==>
                && r == Created(|body|)
                && files == old(files)[(bucket, key) := body]
                && view.objects == old(view.objects)[(bucket, key) :=
                     Metadata.ObjectMeta(bucket, key, |body|, UserOf(bucket, header), expiresAt)]
      ensures r.Created? ==>
                var user, infos := UserOf(bucket, header), old(buckets.infos);
                var info := if user in infos then infos[user] else Buckets.Info(user, "free", 2 * 1073741824, 0, 0);
                buckets.infos ==
                if user == "" then infos
                else infos[user := info.(usedBytes := Max(0, info.usedBytes + |body|),
                                         fileCount := Max(0, info.fileCount + 1))]
      ensures old(FilesMatch(Value())) ==> FilesMatch(Value())
      ensures forall u, loss | u != "" && old(Balanced(Value(), u, loss)) ::
                Balanced(Value(), u, if r.Created? then LossAfterPut(old(Value()), (bucket, key), loss, u) else loss)
    {
      PutKeeps(Value(), (bucket, key), body, UserOf(bucket, header), expiresAt);
      hide Metadata.Represents, Metadata.KeysApart, Metadata.ViewWithin, Metadata.Unaliased, Metadata.PlainView,
           FilesMatch, Balanced, LossAfterPut;
      if body == [] {
        return EmptyBody;
      }
      var user := UserOf(bucket, header);
      if user != "" {
        var ok, _ := buckets.CheckQuota(user, |body|);
        if !ok {
          return QuotaExceeded;
        }
      }
      files := files[(bucket, key) := body];
      var meta := Metadata.ObjectMeta(bucket, key, |body|, user, expiresAt);
      Metadata.IsPlain(metas.db, view);
      Metadata.PutWithin(view, realm, meta);
      metas.Put(meta);
      view := Metadata.PutView(view, meta);
      if user != "" {
        buckets.AddUsage(user, |body|, 1);
      }
      return Created(|body|);
    }

    /** The size a delete will give back: the recorded one, or else the file's. */
    method SizeToRelease(bucket: string, key: string, user: string) returns (size: nat)
      requires Valid() && (bucket, key) in realm.names
      ensures size == SizeBeforeDelete(Value(), (bucket, key), user)
      ensures (bucket, key) in view.objects && view.objects[(bucket, key)].size > 0 ==>
                size == view.objects[(bucket, key)].size
      ensures !((bucket, key) in view.objects && view.objects[(bucket, key)].size > 0) ==>
                size == (if user != "" && (bucket, key) in files then |files[(bucket, key)]| else 0)
    {
      Metadata.WithinUnaliased(view, realm, (bucket, key));
      hide Metadata.Represents, Metadata.KeysApart, Metadata.ViewWithin, Metadata.Unaliased;
      size := 0;
      var meta := metas.Get(bucket, key);
      if meta.Some? {
        size := meta.value.size;
      }
      if size == 0 && user != "" && (bucket, key) in files {
        size := |files[(bucket, key)]|;
      }
    }

    /** The metadata side of a delete. */
    method Forget(bucket: string, key: string)
      requires Valid() && (bucket, key) in realm.names
      modifies this`view, metas
      ensures Valid() && view == Metadata.DeleteView(old(view), (bucket, key))
    {
      Metadata.WithinUnaliased(view, realm, (bucket, key));
      DeleteWithin(view, realm, (bucket, key));
      hide Metadata.Represents, Metadata.KeysApart, Metadata.ViewWithin, Metadata.Unaliased;
      var _ := metas.Delete(bucket, key);
      view := Metadata.DeleteView(view, (bucket, key));
    }

    /** File, metadata and usage, one after the other. */
    method RemoveObject(bucket: string, key: string, user: string) returns (r: Response)
      requires Valid() && (bucket, key) in realm.names
      modifies this, metas, buckets
      ensures Valid() && (Value(), r) == DeleteStep(old(Value()), (bucket, key), user)
      ensures r == if (bucket, key) in old(files) then NoContent else NotFound
      ensures r.NotFound? ==>
                && files == old(files) && view == old(view) && metas.db == old(metas.db)
                && buckets.infos == old(buckets.infos)
      ensures r.NoContent? ==>
                && files == old(files) - {(bucket, key)}
                && view.objects == old(view.objects) - {(bucket, key)}
      ensures r.NoContent? ==>
                var recorded := if (bucket, key) in old(view.objects) then old(view.objects)[(bucket, key)].size else 0;
                var size := if recorded > 0 then recorded else |old(files)[(bucket, key)]|;
                var infos := old(buckets.infos);
                var info := if user in infos then infos[user] else Buckets.Info(user, "free", 2 * 1073741824, 0, 0);
                buckets.infos ==
                if user == "" || size == 0 then infos
                else infos[user := info.(usedBytes := Max(0, info.usedBytes - size),
                                         fileCount := Max(0, info.fileCount - 1))]
    {
      hide Metadata.Represents, Metadata.KeysApart, Metadata.ViewWithin, SizeBeforeDelete;
      var size := SizeToRelease(bucket, key, user);
      if (bucket, key) !in files {
        return NotFound;
      }
      files := files - {(bucket, key)};
      Forget(bucket, key);
      if user != "" && size > 0 {
        buckets.AddUsage(user, 0 - size as int, -1);
      }
      assert view.objects == old(view.objects) - {(bucket, key)};
      return NoContent;
    }

    /** The handler of a delete request. */
    method DeleteObject(bucket: string, key: string, header: string) returns (r: Response)
      requires Valid() && (bucket, key) in realm.names
      modifies this, metas, buckets
      ensures Valid()
      ensures (Value(), r) == DeleteStep(old(Value()), (bucket, key), UserOf(bucket, header))
      ensures r == if (bucket, key) in old(files) then NoContent else NotFound
      ensures r.NotFound? ==>
                && files == old(files) && view == old(view) && metas.db == old(metas.db)
                && buckets.infos == old(buckets.infos)
      ensures r.NoContent? ==>
                && files == old(files) - {(bucket, key)}
                && view.objects == old(view.objects) - {(bucket, key)}
      ensures r.NoContent? ==>
                var recorded := if (bucket, key) in old(view.objects) then old(view.objects)[(bucket, key)].size else 0;
                var size := if recorded > 0 then recorded else |old(files)[(bucket, key)]|;
                var user, infos := UserOf(bucket, header), old(buckets.infos);
                var info := if user in infos then infos[user] else Buckets.Info(user, "free", 2 * 1073741824, 0, 0);
                buckets.infos ==
                if user == "" || size == 0 then infos
                else infos[user := info.(usedBytes := Max(0, info.usedBytes - size),
                                         fileCount := Max(0, info.fileCount - 1))]
      ensures old(FilesMatch(Value())) ==> FilesMatch(Value())
      ensures old(FilesMatch(Value())) && old(DeletesOwn(Value(), (bucket, key), UserOf(bucket, header))) ==>
                forall u, loss | u != "" && old(Balanced(Value(), u, loss)) :: Balanced(Value(), u, loss)
    {
      DeleteKeeps(Value(), (bucket, key), UserOf(bucket, header));
      hide FilesMatch, Balanced, DeletesOwn, DeleteStep, Metadata.Represents, Metadata.KeysApart, Metadata.ViewWithin;
      r := RemoveObject(bucket, key, UserOf(bucket, header));
    }
  }
}
