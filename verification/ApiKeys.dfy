/** API keys under two indexes, by id and by hash, with delayed touches: the indexes always agree, and exactly the
    created keys that were not revoked or deleted since are accepted. */
module ApiKeys {
  import opened Prelude

  datatype ApiKey = ApiKey(id: string, name: string, keyHash: string, permissions: seq<string>, createdAt: int,
                           lastUsedAt: Option<int>, expiresAt: Option<int>, active: bool)

  datatype State = State(byId: map<string, ApiKey>, byHash: map<string, ApiKey>)

  const EMPTY: State := State(map[], map[])

  // ---- Transactions ----

  /** Writes a record under both its keys. */
  function Written(s: State, key: ApiKey): State {
    State(s.byId[key.id := key], s.byHash[key.keyHash := key])
  }

  function Accepts(s: State, hash: string, now: int): Option<ApiKey> {
    if hash !in s.byHash || !s.byHash[hash].active then None
    else if s.byHash[hash].expiresAt.Some? && now > s.byHash[hash].expiresAt.value then None
    else Some(s.byHash[hash])
  }

  /** updateLastUsed, whenever it gets to run. */
  function TouchTxn(s: State, id: string, now: int): State {
    if id !in s.byId then s
    else
      var key := s.byId[id].(lastUsedAt := Some(now));
      State(s.byId[id := key], s.byHash[key.keyHash := key])
  }

  function RevokeTxn(s: State, id: string): State {
    if id !in s.byId then s
    else
      var key := s.byId[id].(active := false);
      State(s.byId[id := key], s.byHash[key.keyHash := key])
  }

  function DeleteTxn(s: State, id: string): State {
    if id !in s.byId then s else State(s.byId - {id}, s.byHash - {s.byId[id].keyHash})
  }

  // ---- The indexes agree ----

  /** Both indexes hold the same records, each under its own id and hash. */
  ghost predicate Agree(s: State) {
    && (forall id | id in s.byId ::
          s.byId[id].id == id && s.byId[id].keyHash in s.byHash && s.byHash[s.byId[id].keyHash] == s.byId[id])
    && forall h | h in s.byHash ::
         s.byHash[h].keyHash == h && s.byHash[h].id in s.byId && s.byId[s.byHash[h].id] == s.byHash[h]
  }

  ghost predicate Fresh(s: State, id: string, hash: string) {
    id !in s.byId && hash !in s.byHash
  }

  /** Creating a key keeps the indexes in agreement exactly when its id and hash are both new, or both belong to one
      existing record. A repeated id with a new hash, in particular, leaves an old record behind that no id reaches. */
  lemma CreateAgreesIff(s: State, key: ApiKey)
    requires Agree(s)
    ensures Agree(Written(s, key)) <==>
            Fresh(s, key.id, key.keyHash) || (key.id in s.byId && s.byId[key.id].keyHash == key.keyHash)
  {
    var t := Written(s, key);
    if key.id in s.byId && s.byId[key.id].keyHash != key.keyHash {
      assert s.byId[key.id].keyHash in t.byHash;
    }
    if key.id !in s.byId && key.keyHash in s.byHash {
      assert s.byHash[key.keyHash].id in t.byId;
    }
  }

  /** The danger in that case: revoking the id reaches the new hash only. The older one stays accepted exactly when
      it was accepted before and is not the new one. */
  lemma RepeatedIdEscapesRevoke(s: State, key: ApiKey, now: int)
    requires Agree(s) && key.id in s.byId
    ensures var t, hash := RevokeTxn(Written(s, key), key.id), s.byId[key.id].keyHash;
            && Accepts(t, key.keyHash, now).None?
            && (Accepts(t, hash, now).Some? <==> Accepts(s, hash, now).Some? && hash != key.keyHash)
  {
    var t, hash := RevokeTxn(Written(s, key), key.id), s.byId[key.id].keyHash;
    assert !t.byHash[key.keyHash].active;
    if hash != key.keyHash {
      assert t.byHash[hash] == s.byHash[hash];
    }
  }

  lemma TouchAgrees(s: State, id: string, now: int)
    requires Agree(s)
    ensures Agree(TouchTxn(s, id, now))
  {
  }

  lemma RevokeAgrees(s: State, id: string)
    requires Agree(s)
    ensures Agree(RevokeTxn(s, id))
  {
  }

  lemma DeleteAgrees(s: State, id: string)
    requires Agree(s)
    ensures Agree(DeleteTxn(s, id))
  {
  }

  // ---- Runs ----

  /** Touches may come at any time and in any number; validations themselves change nothing. */
  datatype Event =
    | Create(id: string, name: string, hash: string, permissions: seq<string>, now: int)
    | Touch(id: string, now: int)
    | Revoke(id: string)
    | Delete(id: string)

  function NewKey(id: string, name: string, hash: string, permissions: seq<string>, now: int): ApiKey {
    ApiKey(id, name, hash, permissions, now, None, None, true)
  }

  function Apply(s: State, e: Event): State {
    match e
    case Create(id, name, hash, permissions, now) => Written(s, NewKey(id, name, hash, permissions, now))
    case Touch(id, now) => TouchTxn(s, id, now)
    case Revoke(id) => RevokeTxn(s, id)
    case Delete(id) => DeleteTxn(s, id)
  }

  function Run(events: seq<Event>): State {
    if events == [] then EMPTY else Apply(Run(events[..|events| - 1]), events[|events| - 1])
  }

  /** Every creation used an id and a hash that were new at the time. */
  ghost predicate FreshRun(events: seq<Event>) {
    events != [] ==>
      var before, e := events[..|events| - 1], events[|events| - 1];
      FreshRun(before) && (e.Create? ==> Fresh(Run(before), e.id, e.hash))
  }

  /** The bookkeeping a user has in mind: the hashes of the keys created and not revoked or deleted since, with ids. */
  function ApplyLive(live: map<string, string>, e: Event): map<string, string> {
    match e
    case Create(id, _, hash, _, _) => live[hash := id]
    case Touch(_, _) => live
    case Revoke(id) => map h | h in live && live[h] != id :: live[h]
    case Delete(id) => map h | h in live && live[h] != id :: live[h]
  }

  function Live(events: seq<Event>): map<string, string> {
    if events == [] then map[] else ApplyLive(Live(events[..|events| - 1]), events[|events| - 1])
  }

  ghost predicate Tracks(s: State, live: map<string, string>) {
    && Agree(s)
    && (forall h | h in s.byHash :: s.byHash[h].expiresAt.None?)
    && (forall h | h in live :: h in s.byHash && s.byHash[h].active && s.byHash[h].id == live[h])
    && (forall h | h in s.byHash && s.byHash[h].active :: h in live)
  }

  lemma CreateTracks(s: State, live: map<string, string>, e: Event)
    requires Tracks(s, live) && e.Create? && Fresh(s, e.id, e.hash)
    ensures Tracks(Apply(s, e), ApplyLive(live, e))
  {
    var key := NewKey(e.id, e.name, e.hash, e.permissions, e.now);
    CreateAgreesIff(s, key);
    hide Agree;
    assert Apply(s, e) == Written(s, key);
  }

  lemma TouchTracks(s: State, live: map<string, string>, id: string, now: int)
    requires Tracks(s, live)
    ensures Tracks(TouchTxn(s, id, now), live)
  {
    TouchAgrees(s, id, now);
  }

  lemma RevokeTracks(s: State, live: map<string, string>, id: string)
    requires Tracks(s, live)
    ensures Tracks(RevokeTxn(s, id), ApplyLive(live, Revoke(id)))
  {
    RevokeAgrees(s, id);
  }

  lemma DeleteTracks(s: State, live: map<string, string>, id: string)
    requires Tracks(s, live)
    ensures Tracks(DeleteTxn(s, id), ApplyLive(live, Delete(id)))
  {
    DeleteAgrees(s, id);
  }

  lemma StepTracks(s: State, live: map<string, string>, e: Event)
    requires Tracks(s, live) && (e.Create? ==> Fresh(s, e.id, e.hash))
    ensures Tracks(Apply(s, e), ApplyLive(live, e))
  {
    hide Tracks, TouchTxn, RevokeTxn, DeleteTxn;
    match e
    case Create(_, _, _, _, _) => CreateTracks(s, live, e);
    case Touch(id, now) => TouchTracks(s, live, id, now);
    case Revoke(id) => RevokeTracks(s, live, id);
    case Delete(id) => DeleteTracks(s, live, id);
  }

  lemma {:induction false} RunTracks(events: seq<Event>)
    requires FreshRun(events)
    ensures Tracks(Run(events), Live(events))
  {
    if events != [] {
      hide Tracks, Apply, Fresh;
      var k := |events| - 1;
      RunTracks(events[..k]);
      StepTracks(Run(events[..k]), Live(events[..k]), events[k]);
    } else {
      assert Tracks(EMPTY, map[]);
    }
  }

  /** After any run with fresh ids and hashes, whatever touches were delayed until when: both indexes hold the same
      records, and a key is accepted exactly when it was created and neither revoked nor deleted since. */
  lemma AcceptsExactlyLive(events: seq<Event>, hash: string, now: int)
    requires FreshRun(events)
    ensures Agree(Run(events))
    ensures Accepts(Run(events), hash, now).Some? <==> hash in Live(events)
    ensures hash in Live(events) ==> Accepts(Run(events), hash, now).value.id == Live(events)[hash]
  {
    RunTracks(events);
  }

  /** In particular a revoked or deleted key stays dead: no later touch, creation of other keys, revocation or deletion
      brings its hash back. */
  lemma {:induction false} DeadStaysDead(events: seq<Event>, later: seq<Event>, hash: string, now: int)
    requires FreshRun(events + later) && hash !in Live(events)
    requires forall e | e in later && e.Create? :: e.hash != hash
    ensures hash !in Live(events + later)
    ensures Accepts(Run(events + later), hash, now).None?
    decreases |later|
  {
    if later == [] {
      assert events + later == events;
    } else {
      var k := |later| - 1;
      assert (events + later)[..|events| + k] == events + later[..k];
      assert later[k] in later;
      assert forall e | e in later[..k] :: e in later;
      DeadStaysDead(events, later[..k], hash, now);
    }
    AcceptsExactlyLive(events + later, hash, now);
  }

  lemma RevokedOrDeletedIsDead(events: seq<Event>, hash: string)
    requires FreshRun(events) && hash in Live(events)
    ensures var id := Live(events)[hash];
            && hash !in Live(events + [Revoke(id)]) && hash !in Live(events + [Delete(id)])
            && (forall h | h != hash :: h in Live(events + [Revoke(id)]) <==> h in Live(events))
            && (forall h | h != hash :: h in Live(events + [Delete(id)]) <==> h in Live(events))
  {
    var id := Live(events)[hash];
    assert (events + [Revoke(id)])[..|events|] == events;
    assert (events + [Delete(id)])[..|events|] == events;
    RunTracks(events);
    hide Run, FreshRun;
    assert forall h | h in Live(events) && Live(events)[h] == id :: h == hash;
  }

  // ---- Which creations are harmless ----

  /** No other key has the hash, and a key of the same id has it too or is revoked. */
  ghost predicate Harmless(s: State, id: string, hash: string) {
    && (forall j | j in s.byId && j != id :: s.byId[j].keyHash != hash)
    && (id in s.byId ==> s.byId[id].keyHash == hash || !s.byId[id].active)
  }

  ghost predicate HarmlessRun(events: seq<Event>) {
    events != [] ==>
      var before, e := events[..|events| - 1], events[|events| - 1];
      HarmlessRun(before) && (e.Create? ==> Harmless(Run(before), e.id, e.hash))
  }

  /** The indexes agree on all but inactive records that no id reaches any more. */
  ghost predicate Tolerable(s: State, live: map<string, string>) {
    && (forall id | id in s.byId ::
          s.byId[id].id == id && s.byId[id].keyHash in s.byHash && s.byHash[s.byId[id].keyHash] == s.byId[id])
    && (forall h | h in s.byHash :: s.byHash[h].keyHash == h && s.byHash[h].expiresAt.None?)
    && (forall h | h in s.byHash && s.byHash[h].active ::
          h in live && live[h] == s.byHash[h].id && s.byHash[h].id in s.byId && s.byId[s.byHash[h].id] == s.byHash[h])
    && forall h | h in live :: h in s.byHash && s.byHash[h].active
  }

  lemma CreateTolerable(s: State, live: map<string, string>, e: Event)
    requires Tolerable(s, live) && e.Create? && Harmless(s, e.id, e.hash)
    ensures Tolerable(Apply(s, e), ApplyLive(live, e))
  {
  }

  lemma TouchTolerable(s: State, live: map<string, string>, id: string, now: int)
    requires Tolerable(s, live)
    ensures Tolerable(TouchTxn(s, id, now), live)
  {
  }

  lemma RevokeTolerable(s: State, live: map<string, string>, id: string)
    requires Tolerable(s, live)
    ensures Tolerable(RevokeTxn(s, id), ApplyLive(live, Revoke(id)))
  {
  }

  lemma DeleteTolerable(s: State, live: map<string, string>, id: string)
    requires Tolerable(s, live)
    ensures Tolerable(DeleteTxn(s, id), ApplyLive(live, Delete(id)))
  {
  }

  lemma StepTolerable(s: State, live: map<string, string>, e: Event)
    requires Tolerable(s, live) && (e.Create? ==> Harmless(s, e.id, e.hash))
    ensures Tolerable(Apply(s, e), ApplyLive(live, e))
  {
    hide Tolerable, Harmless, TouchTxn, RevokeTxn, DeleteTxn;
    match e
    case Create(_, _, _, _, _) => CreateTolerable(s, live, e);
    case Touch(id, now) => TouchTolerable(s, live, id, now);
    case Revoke(id) => RevokeTolerable(s, live, id);
    case Delete(id) => DeleteTolerable(s, live, id);
  }

  lemma {:induction false} RunTolerable(events: seq<Event>)
    requires HarmlessRun(events)
    ensures Tolerable(Run(events), Live(events))
  {
    if events != [] {
      hide Tolerable, Apply, Harmless;
      var k := |events| - 1;
      RunTolerable(events[..k]);
      StepTolerable(Run(events[..k]), Live(events[..k]), events[k]);
    } else {
      assert Tolerable(EMPTY, map[]);
    }
  }

  /** A hash is accepted exactly when its key is live, as that key. */
  ghost predicate RightAfter(events: seq<Event>) {
    forall hash, now ::
      && (Accepts(Run(events), hash, now).Some? <==> hash in Live(events))
      && (hash in Live(events) ==> Accepts(Run(events), hash, now).value.id == Live(events)[hash])
  }

  lemma TolerableRight(events: seq<Event>)
    requires HarmlessRun(events)
    ensures RightAfter(events)
  {
    RunTolerable(events);
  }

  ghost predicate NoCreation(events: seq<Event>) {
    forall e | e in events :: !e.Create?
  }

  lemma {:induction false} HarmlessPrefix(events: seq<Event>, i: nat)
    requires HarmlessRun(events) && i <= |events|
    ensures HarmlessRun(events[..i])
    decreases |events|
  {
    if i < |events| {
      HarmlessPrefix(events[..|events| - 1], i);
      assert events[..|events| - 1][..i] == events[..i];
    } else {
      assert events[..i] == events;
    }
  }

  lemma {:induction false} HarmlessAppend(events: seq<Event>, more: seq<Event>)
    requires HarmlessRun(events) && NoCreation(more)
    ensures HarmlessRun(events + more)
    decreases |more|
  {
    hide Harmless, Run;
    if more == [] {
      assert events + more == events;
    } else {
      var init, e := more[..|more| - 1], more[|more| - 1];
      assert e in more && forall x | x in init :: x in more;
      HarmlessAppend(events, init);
      assert (events + more)[..|events + more| - 1] == events + init;
    }
  }

  lemma WrongAt(events: seq<Event>, hash: string)
    requires Accepts(Run(events), hash, 0).Some? != (hash in Live(events))
    ensures !RightAfter(events)
  {
  }

  lemma TwoMore(events: seq<Event>, e: Event, f: Event)
    ensures Run(events + [e] + [f]) == Apply(Apply(Run(events), e), f)
    ensures Live(events + [e] + [f]) == ApplyLive(ApplyLive(Live(events), e), f)
  {
    hide Apply, ApplyLive;
    assert (events + [e])[..|events|] == events;
    assert (events + [e] + [f])[..|events| + 1] == events + [e];
  }

  /** The other key with the hash of the new one: revoking it disables the new one. */
  lemma StolenHash(s: State, live: map<string, string>, e: Event, j: string)
    requires Tolerable(s, live) && e.Create? && j in s.byId && j != e.id && s.byId[j].keyHash == e.hash
    ensures Accepts(Apply(Apply(s, e), Revoke(j)), e.hash, 0).None?
    ensures e.hash in ApplyLive(ApplyLive(live, e), Revoke(j))
  {
  }

  /** The older active key with the id of the new one: revoking that id does not reach it. */
  lemma LostRecord(s: State, live: map<string, string>, e: Event)
    requires Tolerable(s, live) && e.Create? && e.id in s.byId && s.byId[e.id].keyHash != e.hash && s.byId[e.id].active
    ensures Accepts(Apply(Apply(s, e), Revoke(e.id)), s.byId[e.id].keyHash, 0).Some?
    ensures s.byId[e.id].keyHash !in ApplyLive(ApplyLive(live, e), Revoke(e.id))
  {
  }

  /** A creation that is not harmless goes wrong with the next revocation of the right id. */
  lemma HarmfulGoesWrong(events: seq<Event>, e: Event) returns (more: seq<Event>)
    requires HarmlessRun(events) && e.Create? && !Harmless(Run(events), e.id, e.hash)
    ensures NoCreation(more) && !RightAfter(events + [e] + more)
  {
    RunTolerable(events);
    var s, live := Run(events), Live(events);
    if j :| j in s.byId && j != e.id && s.byId[j].keyHash == e.hash {
      more := [Revoke(j)];
      TwoMore(events, e, Revoke(j));
      StolenHash(s, live, e, j);
      assert !RightAfter(events + [e] + more) by { WrongAt(events + [e] + more, e.hash); }
    } else {
      more := [Revoke(e.id)];
      TwoMore(events, e, Revoke(e.id));
      LostRecord(s, live, e);
      assert !RightAfter(events + [e] + more) by { WrongAt(events + [e] + more, s.byId[e.id].keyHash); }
    }
  }

  /** Whatever touches, revocations and deletions follow whatever part of the run, acceptance is right. */
  ghost predicate AlwaysRight(events: seq<Event>) {
    forall i, more | 0 <= i <= |events| && NoCreation(more) :: RightAfter(events[..i] + more)
  }

  lemma {:induction false} RightMeansHarmless(events: seq<Event>)
    requires AlwaysRight(events)
    ensures HarmlessRun(events)
    decreases |events|
  {
    hide Run, Live, RightAfter, Harmless;
    if events != [] {
      var k := |events| - 1;
      var before, e := events[..k], events[k];
      forall i, more | 0 <= i <= |before| && NoCreation(more)
        ensures RightAfter(before[..i] + more)
      {
        assert before[..i] == events[..i];
      }
      RightMeansHarmless(before);
      if e.Create? && !Harmless(Run(before), e.id, e.hash) {
        assert events[..|events|] == before + [e];
        var more := HarmfulGoesWrong(before, e);
      }
    }
  }

  /** That is so exactly when every creation is harmless: no other key has its hash at the time, and a key that has
      its id has its hash too or is revoked. */
  lemma AlwaysRightIff(events: seq<Event>)
    ensures AlwaysRight(events) <==> HarmlessRun(events)
  {
    hide Run, Live, RightAfter, Harmless;
    if HarmlessRun(events) {
      forall i, more | 0 <= i <= |events| && NoCreation(more)
        ensures RightAfter(events[..i] + more)
      {
        HarmlessPrefix(events, i);
        HarmlessAppend(events[..i], more);
        TolerableRight(events[..i] + more);
      }
    }
    if AlwaysRight(events) {
      RightMeansHarmless(events);
    }
  }

  // ---- What an accepted key's record says ----

  /** The last creation with the hash. */
  function CreationOf(events: seq<Event>, hash: string): Option<Event> {
    if events == [] then None else
      var e := events[|events| - 1];
      if e.Create? && e.hash == hash then Some(e) else CreationOf(events[..|events| - 1], hash)
  }

  /** The time of the last touch of the id since the last creation with the hash. */
  function LastTouch(events: seq<Event>, id: string, hash: string): Option<int> {
    if events == [] then None else
      var e := events[|events| - 1];
      if e.Create? && e.hash == hash then None
      else if e.Touch? && e.id == id then Some(e.now)
      else LastTouch(events[..|events| - 1], id, hash)
  }

  /** The record of a live key, as it was created and last touched. */
  ghost predicate AsCreated(s: State, live: map<string, string>, events: seq<Event>, hash: string) {
    hash in live ==>
      var creation := CreationOf(events, hash);
      && creation.Some? && creation.value.Create? && hash in s.byHash
      && s.byHash[hash] ==
         ApiKey(creation.value.id, creation.value.name, hash, creation.value.permissions, creation.value.now,
                LastTouch(events, creation.value.id, hash), None, true)
  }

  lemma StepAsCreated(s: State, live: map<string, string>, events: seq<Event>, e: Event, hash: string)
    requires Tolerable(s, live) && AsCreated(s, live, events, hash)
    ensures AsCreated(Apply(s, e), ApplyLive(live, e), events + [e], hash)
  {
    assert (events + [e])[..|events|] == events;
    match e
    case Create(_, _, _, _, _) =>
    case Touch(id, _) => assert id in s.byId ==> s.byHash[s.byId[id].keyHash] == s.byId[id];
    case Revoke(id) => assert id in s.byId ==> s.byHash[s.byId[id].keyHash] == s.byId[id];
    case Delete(id) => assert id in s.byId ==> s.byHash[s.byId[id].keyHash] == s.byId[id];
  }

  lemma {:induction false} RunAsCreated(events: seq<Event>, hash: string)
    requires HarmlessRun(events)
    ensures AsCreated(Run(events), Live(events), events, hash)
  {
    if events != [] {
      var before, e := events[..|events| - 1], events[|events| - 1];
      RunAsCreated(before, hash);
      RunTolerable(before);
      StepAsCreated(Run(before), Live(before), before, e, hash);
      assert events == before + [e];
    }
  }

  /** The record that an accepted key comes with has the id, name, permissions and time of its creation, no expiry, and
      the time of the last touch, however long that was delayed. */
  lemma AcceptedAsCreated(events: seq<Event>, hash: string, now: int)
    requires HarmlessRun(events) && Accepts(Run(events), hash, now).Some?
    ensures var creation := CreationOf(events, hash);
            && creation.Some? && creation.value.Create?
            && Accepts(Run(events), hash, now).value ==
               ApiKey(creation.value.id, creation.value.name, hash, creation.value.permissions, creation.value.now,
                      LastTouch(events, creation.value.id, hash), None, true)
  {
    RunTolerable(events);
    RunAsCreated(events, hash);
  }

  /** A touch changes the time of the last use and nothing else, in either index. */
  lemma TouchKeeps(s: State, id: string, now: int)
    requires Agree(s)
    ensures var t := TouchTxn(s, id, now);
            && t.byId.Keys == s.byId.Keys && t.byHash.Keys == s.byHash.Keys
            && (forall i | i in s.byId ::
                  t.byId[i] == if i == id then s.byId[i].(lastUsedAt := Some(now)) else s.byId[i])
            && forall h | h in s.byHash ::
                 t.byHash[h] == if s.byHash[h].id == id then s.byHash[h].(lastUsedAt := Some(now)) else s.byHash[h]
  {
  }

  // ---- The store ----

  class Store {
    const digest: string -> string
    var byId: map<string, ApiKey>
    var byHash: map<string, ApiKey>

    ghost function Value(): State
      reads this
    {
      State(byId, byHash)
    }

    ghost predicate Valid()
      reads this
    {
      Agree(Value())
    }

    constructor (digest: string -> string)
      ensures this.digest == digest && Value() == EMPTY && Valid()
    {
      this.digest := digest;
      byId, byHash := map[], map[];
    }

    /** `plainKey` is the generated secret and `id` comes from the clock; only the digest of the secret is kept. */
    method CreateKey(id: string, plainKey: string, name: string, permissions: seq<string>, now: int)
      returns (key: ApiKey)
      modifies this
      ensures key == ApiKey(id, name, digest(plainKey), permissions, now, None, None, true)
      ensures Value() == Apply(old(Value()), Create(id, name, digest(plainKey), permissions, now))
      ensures byId == old(byId)[id := key] && byHash == old(byHash)[digest(plainKey) := key]
      ensures old(Valid()) && Fresh(old(Value()), id, digest(plainKey)) ==> Valid()
    {
      key := ApiKey(id, name, digest(plainKey), permissions, now, None, None, true);
      if old(Valid()) {
        CreateAgreesIff(Value(), key);
      }
      hide Agree;
      byHash := byHash[key.keyHash := key];
      byId := byId[key.id := key];
    }

    method ValidateKey(plainKey: string, now: int) returns (key: Option<ApiKey>)
      ensures key == Accepts(Value(), digest(plainKey), now)
      ensures var hash := digest(plainKey);
              && (key.Some? <==>
                    && hash in byHash && byHash[hash].active
                    && (byHash[hash].expiresAt.None? || now <= byHash[hash].expiresAt.value))
              && (key.Some? ==> key.value == byHash[hash])
      ensures Valid() && key.Some? ==>
                && key.value.keyHash == digest(plainKey) && key.value.active
                && key.value.id in byId && byId[key.value.id] == key.value
    {
      var hash := digest(plainKey);
      if hash !in byHash {
        return None;
      }
      var found := byHash[hash];
      if !found.active {
        return None;
      }
      if found.expiresAt.Some? && now > found.expiresAt.value {
        return None;
      }
      return Some(found);
    }

    method UpdateLastUsed(id: string, now: int)
      modifies this
      ensures Value() == Apply(old(Value()), Touch(id, now))
      ensures if id in old(byId)
              then var key := old(byId)[id].(lastUsedAt := Some(now));
                   byId == old(byId)[id := key] && byHash == old(byHash)[key.keyHash := key]
              else byId == old(byId) && byHash == old(byHash)
      ensures old(Valid()) ==> Valid()
    {
      if old(Valid()) {
        TouchAgrees(Value(), id, now);
      }
      hide Agree;
      if id !in byId {
        return;
      }
      var key := byId[id];
      key := key.(lastUsedAt := Some(now));
      byId := byId[id := key];
      byHash := byHash[key.keyHash := key];
    }

    method RevokeKey(id: string) returns (found: bool)
      modifies this
      ensures found <==> id in old(byId)
      ensures Value() == Apply(old(Value()), Revoke(id))
      ensures if id in old(byId)
              then var key := old(byId)[id].(active := false);
                   byId == old(byId)[id := key] && byHash == old(byHash)[key.keyHash := key]
              else byId == old(byId) && byHash == old(byHash)
      ensures old(Valid()) ==> Valid()
    {
      if old(Valid()) {
        RevokeAgrees(Value(), id);
      }
      hide Agree;
      if id !in byId {
        return false;
      }
      var key := byId[id];
      key := key.(active := false);
      byId := byId[id := key];
      byHash := byHash[key.keyHash := key];
      return true;
    }

    method DeleteKey(id: string) returns (found: bool)
      modifies this
      ensures found <==> id in old(byId)
      ensures Value() == Apply(old(Value()), Delete(id))
      ensures if id in old(byId)
              then byId == old(byId) - {id} && byHash == old(byHash) - {old(byId)[id].keyHash}
              else byId == old(byId) && byHash == old(byHash)
      ensures old(Valid()) ==> Valid()
    {
      if old(Valid()) {
        DeleteAgrees(Value(), id);
      }
      hide Agree;
      if id !in byId {
        return false;
      }
      var hash := byId[id].keyHash;
      byId := byId - {id};
      byHash := byHash - {hash};
      return true;
    }
  }
}
