/** Metering: a bounded window of recent events in memory, a log of all events in Badger, and when a restart can
    rebuild the window from the log. */
module Metering {
  import opened Prelude
  import opened Text
  import opened Decimals

  const DEFAULT_WINDOW: nat := 10000
  const WARMUP_LIMIT: nat := 10000
  const METER_PREFIX: string := "meter:"
  const SEEK_KEY: string := "meter:\U{00ff}"

  /** A time in nanoseconds since 1970, or the zero time, which recording replaces by the clock. */
  type Stamp = Option<int>

  datatype Event = Event(userId: string, eventType: string, bytes: int, credits: int, timestamp: Stamp)

  datatype Summary = Summary(uploadBytes: int, uploadCount: int, downloadBytes: int, downloadCount: int,
                             deleteBytes: int, deleteCount: int, generationCredits: int, generationCount: int)

  function Stamped(e: Event, clock: int): Event {
    if e.timestamp.None? then e.(timestamp := Some(clock)) else e
  }

  // ---- The window ----

  function Push(window: seq<Event>, e: Event, maxSize: nat): seq<Event> {
    (if |window| >= maxSize && window != [] then window[1..] else window) + [e]
  }

  lemma PushKeepsLast(events: seq<Event>, e: Event, maxSize: nat)
    requires maxSize > 0
    ensures Push(LastN(events, maxSize), e, maxSize) == LastN(events + [e], maxSize)
  {
  }

  predicate Selects(e: Event, userId: string, since: Stamp, until: Stamp) {
    && e.userId == userId
    && (since.Some? ==> e.timestamp.Some? && e.timestamp.value >= since.value)
    && (until.Some? && e.timestamp.Some? ==> e.timestamp.value <= until.value)
  }

  function Selected(events: seq<Event>, userId: string, since: Stamp, until: Stamp): seq<Event> {
    if events == [] then [] else
      var e := events[|events| - 1];
      Selected(events[..|events| - 1], userId, since, until) + if Selects(e, userId, since, until) then [e] else []
  }

  function AddGeneration(s: Summary, e: Event): Summary {
    s.(generationCredits := s.generationCredits + e.credits, generationCount := s.generationCount + 1)
  }

  function AddEvent(s: Summary, e: Event): Summary {
    match e.eventType
    case "storage.upload" => s.(uploadBytes := s.uploadBytes + e.bytes, uploadCount := s.uploadCount + 1)
    case "storage.download" => s.(downloadBytes := s.downloadBytes + e.bytes, downloadCount := s.downloadCount + 1)
    case "storage.delete" => s.(deleteBytes := s.deleteBytes + e.bytes, deleteCount := s.deleteCount + 1)
    case "generation.image" => AddGeneration(s, e)
    case "generation.video" => AddGeneration(s, e)
    case "generation.audio" => AddGeneration(s, e)
    case _ => s
  }

  const NOTHING: Summary := Summary(0, 0, 0, 0, 0, 0, 0, 0)

  function Total(events: seq<Event>): Summary {
    if events == [] then NOTHING else AddEvent(Total(events[..|events| - 1]), events[|events| - 1])
  }

  predicate Generation(e: Event) {
    e.eventType == "generation.image" || e.eventType == "generation.video" || e.eventType == "generation.audio"
  }

  lemma AddedEvent(s: Summary, e: Event)
    ensures var t := AddEvent(s, e);
            && (t.uploadCount, t.uploadBytes) == (if e.eventType == "storage.upload"
                                                  then (s.uploadCount + 1, s.uploadBytes + e.bytes)
                                                  else (s.uploadCount, s.uploadBytes))
            && (t.downloadCount, t.downloadBytes) == (if e.eventType == "storage.download"
                                                      then (s.downloadCount + 1, s.downloadBytes + e.bytes)
                                                      else (s.downloadCount, s.downloadBytes))
            && (t.deleteCount, t.deleteBytes) == (if e.eventType == "storage.delete"
                                                  then (s.deleteCount + 1, s.deleteBytes + e.bytes)
                                                  else (s.deleteCount, s.deleteBytes))
            && (t.generationCount, t.generationCredits) ==
               (if Generation(e) then (s.generationCount + 1, s.generationCredits + e.credits)
                else (s.generationCount, s.generationCredits))
  {
  }

  /** A summary keeps count and bytes of every storage type apart and joins the three kinds of generation with their
      credits; events of other types leave no trace. */
  lemma {:induction false} TotalMeaning(events: seq<Event>)
    ensures var s := Total(events);
            var uploads := Filter(events, (e: Event) => e.eventType == "storage.upload");
            var downloads := Filter(events, (e: Event) => e.eventType == "storage.download");
            var deletes := Filter(events, (e: Event) => e.eventType == "storage.delete");
            var generations := Filter(events, (e: Event) =>
              e.eventType == "generation.image" || e.eventType == "generation.video" ||
              e.eventType == "generation.audio");
            && s.uploadCount == |uploads| && s.uploadBytes == SumOf(uploads, (e: Event) => e.bytes)
            && s.downloadCount == |downloads| && s.downloadBytes == SumOf(downloads, (e: Event) => e.bytes)
            && s.deleteCount == |deletes| && s.deleteBytes == SumOf(deletes, (e: Event) => e.bytes)
            && s.generationCount == |generations| && s.generationCredits == SumOf(generations, (e: Event) => e.credits)
  {
    if events != [] {
      TotalMeaning(events[..|events| - 1]);
      AddedEvent(Total(events[..|events| - 1]), events[|events| - 1]);
      var bytes, credits := (e: Event) => e.bytes, (e: Event) => e.credits;
      FilterSums(events, (e: Event) => e.eventType == "storage.upload", bytes);
      FilterSums(events, (e: Event) => e.eventType == "storage.download", bytes);
      FilterSums(events, (e: Event) => e.eventType == "storage.delete", bytes);
      FilterSums(events, (e: Event) =>
        e.eventType == "generation.image" || e.eventType == "generation.video" ||
        e.eventType == "generation.audio", credits);
      hide Filter, SumOf, AddEvent;
    }
  }

  /** What is selected: the user's own events, not before `since` and not after `until`, where given. An event without a
      time counts as before every time. */
  lemma {:induction false} SelectedMeaning(events: seq<Event>, userId: string, since: Stamp, until: Stamp)
    ensures Selected(events, userId, since, until) ==
            Filter(events, (e: Event) =>
              && e.userId == userId
              && (since.None? || (e.timestamp.Some? && since.value <= e.timestamp.value))
              && (until.None? || e.timestamp.None? || e.timestamp.value <= until.value))
  {
    if events != [] {
      SelectedMeaning(events[..|events| - 1], userId, since, until);
    }
  }

  /** A summary is about the user's own events since the time. */
  lemma {:induction false} OwnSelected(events: seq<Event>, userId: string, since: Stamp)
    ensures Selected(events, userId, since, None) ==
            Filter(events, (e: Event) =>
              e.userId == userId && (since.None? || (e.timestamp.Some? && since.value <= e.timestamp.value)))
  {
    if events != [] {
      OwnSelected(events[..|events| - 1], userId, since);
    }
  }

  /** Other users' events are not in anybody's summary. */
  lemma OthersLeaveNoTrace(events: seq<Event>, e: Event, userId: string, since: Stamp)
    requires e.userId != userId
    ensures Total(Selected(events + [e], userId, since, None)) == Total(Selected(events, userId, since, None))
  {
    assert (events + [e])[..|events|] == events;
    assert Selected(events, userId, since, None) + [] == Selected(events, userId, since, None);
  }

  class Meter {
    var events: seq<Event>
    const maxSize: nat

    ghost predicate Valid()
      reads this
    {
      0 < maxSize && |events| <= maxSize
    }

    constructor (maxEvents: int)
      ensures Valid() && events == [] && maxSize == if maxEvents <= 0 then 10000 else maxEvents
    {
      events := [];
      maxSize := if maxEvents <= 0 then DEFAULT_WINDOW else maxEvents;
    }

    method Record(event: Event, clock: int)
      requires Valid()
      modifies this
      ensures Valid() && events == Push(old(events), Stamped(event, clock), maxSize)
      ensures var stamped := if event.timestamp.None? then event.(timestamp := Some(clock)) else event;
              events == LastN(old(events) + [stamped], maxSize)
    {
      var e := event;
      if e.timestamp.None? {
        e := e.(timestamp := Some(clock));
      }
      if |events| >= maxSize {
        events := events[1..];
      }
      events := events + [e];
    }

    /** Records events given newest first in chronological order. */
    method Replay(newestFirst: seq<Event>, ghost newest: seq<Event>)
      requires Valid() && events == [] && |newestFirst| == |newest|
      requires forall i | 0 <= i < |newest| ::
                 newestFirst[i] == newest[|newest| - 1 - i] && newestFirst[i].timestamp.Some?
      modifies this
      ensures Valid() && events == LastN(newest, maxSize)
    {
      var i := |newestFirst|;
      ghost var replayed: seq<Event> := [];
      while i > 0
        invariant 0 <= i <= |newestFirst| && Valid()
        invariant replayed == newest[..|newest| - i]
        invariant events == LastN(replayed, maxSize)
      {
        i := i - 1;
        PushKeepsLast(replayed, newestFirst[i], maxSize);
        Record(newestFirst[i], 0);
        replayed := replayed + [newestFirst[i]];
      }
    }

    method GetEvents(userId: string, since: Stamp, until: Stamp) returns (result: seq<Event>)
      ensures result == Selected(events, userId, since, until)
      ensures result == Filter(events, (e: Event) =>
                && e.userId == userId
                && (since.None? || (e.timestamp.Some? && since.value <= e.timestamp.value))
                && (until.None? || e.timestamp.None? || e.timestamp.value <= until.value))
    {
      result := [];
      for i := 0 to |events|
        invariant result == Selected(events[..i], userId, since, until)
      {
        var e := events[i];
        assert events[..i + 1][..i] == events[..i];
        if e.userId != userId {
          continue;
        }
        if since.Some? && (e.timestamp.None? || e.timestamp.value < since.value) {
          continue;
        }
        if until.Some? && e.timestamp.Some? && e.timestamp.value > until.value {
          continue;
        }
        result := result + [e];
      }
      assert events[..|events|] == events;
      SelectedMeaning(events, userId, since, until);
    }

    /** The summary of a user is the total of what GetEvents would return. */
    method GetSummary(userId: string, since: Stamp) returns (s: Summary)
      ensures s == Total(Selected(events, userId, since, None))
      ensures var own := Filter(events, (e: Event) =>
                e.userId == userId && (since.None? || (e.timestamp.Some? && since.value <= e.timestamp.value)));
              var uploads := Filter(own, (e: Event) => e.eventType == "storage.upload");
              var downloads := Filter(own, (e: Event) => e.eventType == "storage.download");
              var deletes := Filter(own, (e: Event) => e.eventType == "storage.delete");
              var generations := Filter(own, (e: Event) =>
                e.eventType == "generation.image" || e.eventType == "generation.video" ||
                e.eventType == "generation.audio");
              && s.uploadCount == |uploads| && s.uploadBytes == SumOf(uploads, (e: Event) => e.bytes)
              && s.downloadCount == |downloads| && s.downloadBytes == SumOf(downloads, (e: Event) => e.bytes)
              && s.deleteCount == |deletes| && s.deleteBytes == SumOf(deletes, (e: Event) => e.bytes)
              && s.generationCount == |generations|
              && s.generationCredits == SumOf(generations, (e: Event) => e.credits)
    {
      s := NOTHING;
      for i := 0 to |events|
        invariant s == Total(Selected(events[..i], userId, since, None))
      {
        var e := events[i];
        assert events[..i + 1][..i] == events[..i];
        ghost var before := Selected(events[..i], userId, since, None);
        assert before + [] == before && (before + [e])[..|before|] == before;
        if e.userId != userId {
          continue;
        }
        if since.Some? && (e.timestamp.None? || e.timestamp.value < since.value) {
          continue;
        }
        s := AddEvent(s, e);
      }
      assert events[..|events|] == events;
      OwnSelected(events, userId, since);
      TotalMeaning(Selected(events, userId, since, None));
    }
  }

  // ---- The log ----

  /** `%020d`, for negative numbers too. */
  function Padded(n: int): string {
    if n >= 0 then Pad20(n)
    else
      var digits := Print(-n);
      "-" + Zeros(if |digits| < 19 then 19 - |digits| else 0) + digits
  }

  function Key(e: Event): string
    requires e.timestamp.Some?
  {
    METER_PREFIX + Padded(e.timestamp.value) + ":" + e.eventType
  }

  ghost predicate InRange(e: Event) {
    e.timestamp.Some? && 0 <= e.timestamp.value < INT64_LIMIT
  }

  /** For times from 1970 on, the zero-padded keys sort by time, and at one time by event type. */
  lemma KeyOrder(a: Event, b: Event)
    requires InRange(a) && InRange(b)
    ensures Less(Key(a), Key(b)) <==>
            a.timestamp.value < b.timestamp.value ||
            (a.timestamp == b.timestamp && Less(a.eventType, b.eventType))
  {
    var x, y := a.timestamp.value, b.timestamp.value;
    var p, q := Pad20(x), Pad20(y);
    var s, t := ":" + a.eventType, ":" + b.eventType;
    assert Key(a) == METER_PREFIX + (p + s) && Key(b) == METER_PREFIX + (q + t);
    LessAfterCommonPrefix(METER_PREFIX, p + s, q + t);
    Pad20Width(x);
    Pad20Width(y);
    SameWidthOrder(p, q);
    if p == q {
      LessAfterCommonPrefix(p, s, t);
      LessAfterCommonPrefix(":", a.eventType, b.eventType);
    } else {
      LessDecidedEarly(p, s, q, t);
    }
  }

  /** The keys a warm-up meets, in ascending order: with the prefix, and not beyond the seek key. */
  function LogKeys(db: map<string, Event>): seq<string> {
    SortedKeys(set k | k in db && METER_PREFIX <= k && !Less(SEEK_KEY, k))
  }

  function EventsAt(db: map<string, Event>, keys: seq<string>): (r: seq<Event>)
    requires forall k | k in keys :: k in db
    ensures |r| == |keys| && forall i | 0 <= i < |keys| :: r[i] == db[keys[i]]
  {
    if keys == [] then [] else EventsAt(db, keys[..|keys| - 1]) + [db[keys[|keys| - 1]]]
  }

  /** All logged events in key order. */
  function Log(db: map<string, Event>): seq<Event> {
    EventsAt(db, LogKeys(db))
  }

  /** The window a restart builds: the newest logged events, up to the warm-up limit, replayed. */
  function Rebuilt(db: map<string, Event>, maxSize: nat): seq<Event> {
    LastN(LastN(Log(db), WARMUP_LIMIT), maxSize)
  }

  ghost predicate AllStamped(events: seq<Event>) {
    forall i | 0 <= i < |events| :: events[i].timestamp.Some?
  }

  ghost function KeysOf(events: seq<Event>): (keys: seq<string>)
    requires AllStamped(events)
    ensures |keys| == |events| && forall i | 0 <= i < |events| :: keys[i] == Key(events[i])
  {
    seq(|events|, i requires 0 <= i < |events| && events[i].timestamp.Some? => Key(events[i]))
  }

  ghost predicate KeysAscend(events: seq<Event>) {
    AllStamped(events) && Ascending(KeysOf(events))
  }

  ghost predicate Later(a: Event, b: Event)
    requires InRange(a) && InRange(b)
  {
    a.timestamp.value < b.timestamp.value || (a.timestamp == b.timestamp && Less(a.eventType, b.eventType))
  }

  /** Times from 1970 on, strictly later each time (or at the same time with a greater event type), are all it
      takes for keys to ascend. */
  lemma ChronologicalKeysAscend(events: seq<Event>)
    requires forall i | 0 <= i < |events| :: InRange(events[i])
    ensures KeysAscend(events) <==> forall i, j | 0 <= i < j < |events| :: Later(events[i], events[j])
  {
    forall i, j | 0 <= i < j < |events|
      ensures Less(Key(events[i]), Key(events[j])) <==> Later(events[i], events[j])
    {
      KeyOrder(events[i], events[j]);
    }
    hide Less, Key, Later;
    var keys := KeysOf(events);
    if KeysAscend(events) {
      forall i, j | 0 <= i < j < |events|
        ensures Later(events[i], events[j])
      {
        assert Less(keys[i], keys[j]);
      }
    }
  }

  // ---- Recording and restarting ----

  datatype State = State(db: map<string, Event>, window: seq<Event>)

  datatype Op = Record(event: Event, clock: int) | Restart

  function Apply(s: State, op: Op, maxSize: nat): State {
    match op
    case Record(event, clock) =>
      var e := Stamped(event, clock);
      State(s.db[Key(e) := e], Push(s.window, e, maxSize))
    case Restart => s.(window := Rebuilt(s.db, maxSize))
  }

  function Run(ops: seq<Op>, maxSize: nat): State {
    if ops == [] then State(map[], []) else Apply(Run(ops[..|ops| - 1], maxSize), ops[|ops| - 1], maxSize)
  }

  function Recorded(ops: seq<Op>): seq<Event> {
    if ops == [] then [] else
      var op := ops[|ops| - 1];
      Recorded(ops[..|ops| - 1]) + if op.Record? then [Stamped(op.event, op.clock)] else []
  }

  // ---- What recording leaves in the log ----

  /** An event stays under its key until another one with the same key replaces it. */
  ghost function Logged(events: seq<Event>): map<string, Event>
    requires AllStamped(events)
  {
    if events == [] then map[] else
      var e := events[|events| - 1];
      Logged(events[..|events| - 1])[Key(e) := e]
  }

  lemma {:induction false} RunLogged(ops: seq<Op>, maxSize: nat)
    ensures AllStamped(Recorded(ops)) && Run(ops, maxSize).db == Logged(Recorded(ops))
  {
    hide Key, Push, Rebuilt;
    if ops != [] {
      var before, op := ops[..|ops| - 1], ops[|ops| - 1];
      RunLogged(before, maxSize);
      if op.Record? {
        var e := Stamped(op.event, op.clock);
        assert Recorded(ops) == Recorded(before) + [e];
        assert Recorded(ops)[..|Recorded(ops)| - 1] == Recorded(before);
      } else {
        assert Recorded(ops) == Recorded(before);
      }
    }
  }

  /** Every entry is stored under its own key, and the keys are those of the events. */
  ghost predicate SelfKeyed(db: map<string, Event>) {
    forall k | k in db :: db[k].timestamp.Some? && k == Key(db[k])
  }

  lemma {:induction false} LoggedKeys(events: seq<Event>)
    requires AllStamped(events)
    ensures SelfKeyed(Logged(events)) && |Logged(events).Keys| <= |events|
    ensures forall k :: k in Logged(events) <==> k in KeysOf(events)
  {
    hide Key;
    if events != [] {
      var n := |events| - 1;
      LoggedKeys(events[..n]);
      var before, k := Logged(events[..n]), Key(events[n]);
      assert KeysOf(events) == KeysOf(events[..n]) + [k];
      assert Logged(events).Keys == before.Keys + {k};
    }
  }

  lemma {:induction false} StoredUntilReplaced(events: seq<Event>, i: nat)
    requires AllStamped(events) && i < |events|
    requires forall j | i < j < |events| :: Key(events[j]) != Key(events[i])
    ensures Key(events[i]) in Logged(events) && Logged(events)[Key(events[i])] == events[i]
  {
    hide Key;
    if i < |events| - 1 {
      StoredUntilReplaced(events[..|events| - 1], i);
    }
  }

  lemma LaterKeyDiffers(w: seq<Event>, i: nat, j: nat)
    requires KeysAscend(w) && i < j < |w|
    ensures Key(w[j]) != Key(w[i])
  {
    hide Key, Less;
    AscendingDistinct(KeysOf(w));
    assert KeysOf(w)[j] != KeysOf(w)[i];
  }

  /** The newest events are all in the log when their keys ascend. */
  lemma NewestStored(events: seq<Event>, n: nat)
    requires AllStamped(events) && KeysAscend(LastN(events, n))
    ensures var w := LastN(events, n);
            forall i | 0 <= i < |w| :: Key(w[i]) in Logged(events) && Logged(events)[Key(w[i])] == w[i]
  {
    hide Key, Less, Logged, KeysAscend, KeysOf;
    var w := LastN(events, n);
    var from := |events| - |w|;
    forall i | 0 <= i < |w|
      ensures Key(w[i]) in Logged(events) && Logged(events)[Key(w[i])] == w[i]
    {
      forall j | from + i < j < |events|
        ensures Key(events[j]) != Key(w[i])
      {
        LaterKeyDiffers(w, i, j - from);
      }
      StoredUntilReplaced(events, from + i);
    }
  }

  lemma KeysAscendPrefix(a: seq<Event>, b: seq<Event>)
    requires a <= b && KeysAscend(b)
    ensures KeysAscend(a)
  {
    hide Key, Less;
    assert KeysOf(a) == KeysOf(b)[..|a|];
  }

  lemma KeyBounds(e: Event)
    requires e.timestamp.Some?
    ensures METER_PREFIX <= Key(e) && !Less(SEEK_KEY, Key(e))
  {
    var rest := Padded(e.timestamp.value) + ":" + e.eventType;
    assert Key(e) == METER_PREFIX + rest;
    assert SEEK_KEY == METER_PREFIX + "\U{00ff}";
    LessAfterCommonPrefix(METER_PREFIX, "\U{00ff}", rest);
    assert IsDigit(rest[0]) || rest[0] == '-' by {
      if e.timestamp.value >= 0 {
        assert rest[0] == Pad20(e.timestamp.value)[0];
      }
    }
  }

  /** A warm-up meets every logged key. */
  lemma AllKeysMet(db: map<string, Event>)
    requires SelfKeyed(db)
    ensures forall k :: k in LogKeys(db) <==> k in db
    ensures |Log(db)| == |LogKeys(db)| == |db.Keys| && Ascending(LogKeys(db))
  {
    hide Key, Less;
    forall k | k in db
      ensures METER_PREFIX <= k && !Less(SEEK_KEY, k)
    {
      KeyBounds(db[k]);
    }
    assert (set k | k in db && METER_PREFIX <= k && !Less(SEEK_KEY, k)) == db.Keys;
  }

  /** The log and its keys, entry by entry. */
  lemma LogEnd(db: map<string, Event>, n: nat)
    requires SelfKeyed(db) && n <= |LogKeys(db)|
    ensures |Log(db)| == |LogKeys(db)|
    ensures var end, keys := Log(db)[|Log(db)| - n..], LogKeys(db)[|LogKeys(db)| - n..];
            AllStamped(end) && KeysOf(end) == keys && forall i | 0 <= i < n :: keys[i] in db && end[i] == db[keys[i]]
  {
    hide Key, Less;
    var all := LogKeys(db);
    assert forall i | 0 <= i < |all| :: all[i] in all;
  }

  // ---- What a restart rebuilds ----

  lemma LastNTwice<T>(s: seq<T>, a: nat, b: nat)
    ensures LastN(LastN(s, a), b) == LastN(s, Min(b, a))
    ensures LastN(s, Min(b, a)) == LastN(s, b) <==> b <= a || |s| <= a
  {
    assert |LastN(s, b)| == Min(|s|, b) && |LastN(s, Min(b, a))| == Min(|s|, Min(b, a));
  }

  /** Where a key stands among ascending ones: at or after a position, or below what stands there. */
  lemma AtOrBelow(keys: seq<string>, from: nat, k: string)
    requires Ascending(keys) && k in keys && from < |keys|
    ensures k in keys[from..] || Less(k, keys[from])
  {
    hide Less;
    var i :| 0 <= i < |keys| && keys[i] == k;
    if i >= from {
      assert keys[from..][i - from] == k;
    }
  }

  lemma NewestKeys(db: map<string, Event>, n: nat)
    requires SelfKeyed(db) && n > 0
    ensures var keys, r := LogKeys(db), LastN(Log(db), n);
            AllStamped(r) && KeysOf(r) == keys[Max(0, |keys| - n)..] && Ascending(keys)
  {
    LogEnd(db, |LogKeys(db)| - Max(0, |LogKeys(db)| - n));
  }

  /** The newest logged events have ascending keys, and no other key of the log is above the least of them. */
  lemma NewestLogged(db: map<string, Event>, n: nat)
    requires SelfKeyed(db) && n > 0
    ensures var r := LastN(Log(db), n);
            KeysAscend(r) && forall k | k in db :: r != [] && (k in KeysOf(r) || Less(k, KeysOf(r)[0]))
  {
    var keys, r := LogKeys(db), LastN(Log(db), n);
    var from := Max(0, |keys| - n);
    NewestKeys(db, n);
    hide Key, Less, Log, LogKeys, SelfKeyed, LastN;
    forall k | k in db
      ensures r != [] && (k in KeysOf(r) || Less(k, KeysOf(r)[0]))
    {
      assert k in keys by { AllKeysMet(db); }
      AtOrBelow(keys, from, k);
    }
  }

  /** Ascending keys that end a key set end its sorted sequence. */
  lemma AscendingEnd(keys: seq<string>, top: seq<string>)
    requires Ascending(keys) && Ascending(top) && forall k | k in top :: k in keys
    requires forall k | k in keys :: top != [] && (k in top || Less(k, top[0]))
    ensures |top| <= |keys| && keys[|keys| - |top|..] == top
  {
    hide Less;
    var low := SortedKeys(set k | k in keys && k !in top);
    forall i, j | 0 <= i < |low| && 0 <= j < |top|
      ensures Less(low[i], top[j])
    {
      assert low[i] in low;
      if j > 0 {
        LessTransitive(low[i], top[0], top[j]);
      }
    }
    assert Ascending(low + top);
    AscendingUnique(keys, low + top);
  }

  /** Everything that the window has dropped is below its least key, or was replaced by one of its events. */
  ghost predicate DroppedBelow(events: seq<Event>, window: seq<Event>)
    requires AllStamped(events) && AllStamped(window)
  {
    forall i | 0 <= i < |events| ::
      window != [] && (Key(events[i]) in KeysOf(window) || Less(Key(events[i]), Key(window[0])))
  }

  /** What one can check about the recorded events before a restart. */
  ghost predicate Rebuildable(events: seq<Event>, maxSize: nat) {
    var w := LastN(events, maxSize);
    AllStamped(events) && |w| <= 10000 && KeysAscend(w) && DroppedBelow(events, w)
  }

  /** The keys of the window end the sorted keys of all events when everything dropped is below it. */
  lemma KeysEnd(events: seq<Event>, w: seq<Event>, keys: seq<string>)
    requires AllStamped(events) && KeysAscend(w) && DroppedBelow(events, w)
    requires Ascending(keys) && (forall k :: k in keys <==> k in KeysOf(events)) && forall e | e in w :: e in events
    ensures |w| <= |keys| && keys[|keys| - |w|..] == KeysOf(w)
  {
    hide Key, Less;
    var top := KeysOf(w);
    forall k | k in keys
      ensures w != [] && (k in top || Less(k, top[0]))
    {
      var i :| 0 <= i < |events| && KeysOf(events)[i] == k;
      assert Key(events[i]) == k;
    }
    forall k | k in top
      ensures k in keys
    {
      var i :| 0 <= i < |w| && top[i] == k;
      assert w[i] in events;
      var j :| 0 <= j < |events| && events[j] == w[i];
      assert KeysOf(events)[j] == k;
    }
    AscendingEnd(keys, top);
  }

  lemma LogEndsWithWindow(events: seq<Event>, maxSize: nat)
    requires maxSize > 0 && Rebuildable(events, maxSize)
    ensures AllStamped(events)
    ensures var log, w := Log(Logged(events)), LastN(events, maxSize);
            |w| == Min(|events|, maxSize) <= WARMUP_LIMIT && |w| <= |log| <= |events| && log[|log| - |w|..] == w
  {
    hide Key, Less, Log, LogKeys, Logged, KeysAscend, DroppedBelow, SelfKeyed;
    var db, w := Logged(events), LastN(events, maxSize);
    assert SelfKeyed(db) && |Log(db)| == |LogKeys(db)| <= |events| by {
      LoggedKeys(events);
      AllKeysMet(db);
    }
    assert |w| <= |LogKeys(db)| && LogKeys(db)[|LogKeys(db)| - |w|..] == KeysOf(w) by {
      LoggedKeys(events);
      AllKeysMet(db);
      KeysEnd(events, w, LogKeys(db));
    }
    NewestStored(events, maxSize);
    LogEnd(db, |w|);
    var end := Log(db)[|Log(db)| - |w|..];
    forall i | 0 <= i < |w|
      ensures end[i] == w[i]
    {
      assert KeysOf(end)[i] == KeysOf(w)[i] == Key(w[i]);
    }
  }

  lemma EndIsLastN<T>(s: seq<T>, end: seq<T>, total: nat, n: nat, limit: nat)
    requires |end| == Min(total, n) <= limit && |end| <= |s| <= total && s[|s| - |end|..] == end
    ensures LastN(LastN(s, limit), n) == end
  {
    LastNTwice(s, limit, n);
  }

  lemma RebuiltIsEnd(db: map<string, Event>, w: seq<Event>, total: nat, maxSize: nat)
    requires |w| == Min(total, maxSize) <= WARMUP_LIMIT && |w| <= |Log(db)| <= total && Log(db)[|Log(db)| - |w|..] == w
    ensures Rebuilt(db, maxSize) == w
  {
    hide Log;
    EndIsLastN(Log(db), w, total, maxSize, WARMUP_LIMIT);
  }

  lemma RebuildsNewest(events: seq<Event>, maxSize: nat)
    requires maxSize > 0 && Rebuildable(events, maxSize)
    ensures Rebuilt(Logged(events), maxSize) == LastN(events, maxSize)
  {
    hide *;
    LogEndsWithWindow(events, maxSize);
    RebuiltIsEnd(Logged(events), LastN(events, maxSize), |events|, maxSize);
  }

  /** The exact condition for one restart, whatever has been recorded before: the window must fit the warm-up limit,
      its keys must ascend, and nothing dropped may come above its least key. */
  lemma RestartRebuildsIff(events: seq<Event>, maxSize: nat)
    requires maxSize > 0 && AllStamped(events)
    ensures Rebuilt(Logged(events), maxSize) == LastN(events, maxSize) <==> Rebuildable(events, maxSize)
  {
    if Rebuildable(events, maxSize) {
      RebuildsNewest(events, maxSize);
    }
    var db, w := Logged(events), LastN(events, maxSize);
    if Rebuilt(db, maxSize) == w {
      LoggedKeys(events);
      LastNTwice(Log(db), WARMUP_LIMIT, maxSize);
      NewestLogged(db, Min(maxSize, WARMUP_LIMIT));
      hide Key, Less, Log, Logged, SelfKeyed;
      forall i | 0 <= i < |events|
        ensures w != [] && (Key(events[i]) in KeysOf(w) || Less(Key(events[i]), Key(w[0])))
      {
        assert KeysOf(events)[i] in db;
      }
    }
  }

  // ---- Whole runs ----

  ghost predicate Newest(ops: seq<Op>, maxSize: nat) {
    Run(ops, maxSize).window == LastN(Recorded(ops), maxSize)
  }

  /** At every moment of the run the window is the newest events recorded so far. */
  ghost predicate AlwaysNewest(ops: seq<Op>, maxSize: nat) {
    forall i | 0 <= i <= |ops| :: Newest(ops[..i], maxSize)
  }

  ghost predicate RestartsHarmless(ops: seq<Op>, maxSize: nat) {
    forall i | 0 <= i < |ops| && ops[i].Restart? :: Rebuildable(Recorded(ops[..i]), maxSize)
  }

  lemma RunStep(ops: seq<Op>, i: nat, maxSize: nat)
    requires i < |ops| && maxSize > 0 && Newest(ops[..i], maxSize)
    ensures Newest(ops[..i + 1], maxSize) <==> (ops[i].Restart? ==> Rebuildable(Recorded(ops[..i]), maxSize))
  {
    var before := ops[..i];
    assert ops[..i + 1][..i] == before;
    RunLogged(before, maxSize);
    var events := Recorded(before);
    match ops[i]
    case Record(event, clock) => PushKeepsLast(events, Stamped(event, clock), maxSize);
    case Restart =>
      assert Recorded(ops[..i + 1]) == events;
      RestartRebuildsIff(events, maxSize);
  }

  lemma NewestAtFirst(maxSize: nat)
    ensures Newest([], maxSize)
  {
  }

  lemma {:induction false} NewestUpTo(ops: seq<Op>, n: nat, maxSize: nat)
    requires maxSize > 0 && n <= |ops| && RestartsHarmless(ops, maxSize)
    ensures forall i | 0 <= i <= n :: Newest(ops[..i], maxSize)
  {
    hide Newest, Recorded, Rebuildable;
    if n == 0 {
      assert ops[..0] == [];
      NewestAtFirst(maxSize);
    } else {
      NewestUpTo(ops, n - 1, maxSize);
      RunStep(ops, n - 1, maxSize);
    }
  }

  /** Restarts are invisible in a run of records and restarts exactly when each of them meets the condition for one. */
  lemma WindowAlwaysNewestIff(ops: seq<Op>, maxSize: nat)
    requires maxSize > 0
    ensures AlwaysNewest(ops, maxSize) <==> RestartsHarmless(ops, maxSize)
  {
    hide Newest, Recorded, Rebuildable;
    if AlwaysNewest(ops, maxSize) {
      forall i | 0 <= i < |ops| && ops[i].Restart?
        ensures Rebuildable(Recorded(ops[..i]), maxSize)
      {
        RunStep(ops, i, maxSize);
      }
    }
    if RestartsHarmless(ops, maxSize) {
      NewestUpTo(ops, |ops|, maxSize);
    }
  }

  /** The log holds exactly `events`, in this order. */
  ghost predicate LogIs(db: map<string, Event>, events: seq<Event>) {
    && KeysAscend(events)
    && (forall i | 0 <= i < |events| :: KeysOf(events)[i] in db && db[KeysOf(events)[i]] == events[i])
    && forall k | k in db :: k in KeysOf(events)
  }

  lemma LogInOrder(db: map<string, Event>, events: seq<Event>)
    requires LogIs(db, events)
    ensures Log(db) == events
  {
    var keys := KeysOf(events);
    forall i | 0 <= i < |events|
      ensures METER_PREFIX <= keys[i] && !Less(SEEK_KEY, keys[i])
    {
      KeyBounds(events[i]);
    }
    hide Less, Key;
    assert forall i | 0 <= i < |events| :: keys[i] in db;
    AscendingUnique(LogKeys(db), keys);
  }

  lemma LogAppend(db: map<string, Event>, events: seq<Event>, e: Event)
    requires e.timestamp.Some? && LogIs(db, events) && KeysAscend(events + [e])
    ensures LogIs(db[Key(e) := e], events + [e])
  {
    hide Less, Key;
    var keys, more := KeysOf(events), KeysOf(events + [e]);
    assert more == keys + [Key(e)];
    AscendingDistinct(more);
    forall i | 0 <= i < |events|
      ensures more[i] == keys[i] && keys[i] != Key(e)
    {
      assert more[i] != more[|events|];
    }
    assert Key(e) in more && forall k | k in keys :: k in more;
  }

  lemma LoggedIs(events: seq<Event>)
    requires KeysAscend(events)
    ensures LogIs(Logged(events), events)
  {
    assert LastN(events, |events|) == events;
    NewestStored(events, |events|);
    LoggedKeys(events);
  }

  /** Ascending keys meet the condition for every window up to the warm-up limit. */
  lemma AscendingRebuildable(events: seq<Event>, maxSize: nat)
    requires KeysAscend(events) && maxSize > 0
    ensures Rebuildable(events, maxSize) <==> maxSize <= WARMUP_LIMIT || |events| <= WARMUP_LIMIT
  {
    hide Key, Less;
    var w := LastN(events, maxSize);
    var from := |events| - |w|;
    assert KeysOf(w) == KeysOf(events)[from..];
    forall i | 0 <= i < |events|
      ensures w != [] && (Key(events[i]) in KeysOf(w) || Less(Key(events[i]), Key(w[0])))
    {
      assert KeysOf(events)[i] == Key(events[i]);
      if i >= from {
        assert KeysOf(w)[i - from] == Key(events[i]);
      } else {
        assert Less(KeysOf(events)[i], KeysOf(events)[from]);
      }
    }
  }

  lemma {:induction false} RecordedPrefix(ops: seq<Op>, i: nat)
    requires i <= |ops|
    ensures Recorded(ops[..i]) <= Recorded(ops)
    decreases |ops|
  {
    if i < |ops| {
      RecordedPrefix(ops[..|ops| - 1], i);
      assert ops[..|ops| - 1][..i] == ops[..i];
    } else {
      assert ops[..i] == ops;
    }
  }

  /** Over any run of records and restarts whose keys ascend, with a window no larger than the warm-up limit, the
      window is always the newest events ever recorded and the log is all of them; so one more restart would
      change nothing. */
  lemma RestartTransparent(ops: seq<Op>, maxSize: nat)
    requires 0 < maxSize <= WARMUP_LIMIT && KeysAscend(Recorded(ops))
    ensures var s := Run(ops, maxSize);
            && Log(s.db) == Recorded(ops)
            && s.window == LastN(Recorded(ops), maxSize) == Rebuilt(s.db, maxSize)
            && AlwaysNewest(ops, maxSize)
  {
    hide LogIs, Run, Log, KeysAscend, Rebuildable, Recorded;
    forall i | 0 <= i <= |ops|
      ensures Rebuildable(Recorded(ops[..i]), maxSize)
    {
      RecordedPrefix(ops, i);
      KeysAscendPrefix(Recorded(ops[..i]), Recorded(ops));
      AscendingRebuildable(Recorded(ops[..i]), maxSize);
    }
    WindowAlwaysNewestIff(ops, maxSize);
    assert ops[..|ops|] == ops;
    RunLogged(ops, maxSize);
    LoggedIs(Recorded(ops));
    LogInOrder(Logged(Recorded(ops)), Recorded(ops));
    RestartRebuildsIff(Recorded(ops), maxSize);
  }

  function Records(events: seq<Event>): seq<Op> {
    seq(|events|, i requires 0 <= i < |events| => Record(events[i], 0))
  }

  lemma {:induction false} RecordsRecorded(events: seq<Event>)
    requires AllStamped(events)
    ensures Recorded(Records(events)) == events
  {
    if events != [] {
      var n := |events| - 1;
      RecordsRecorded(events[..n]);
      assert Records(events)[..n] == Records(events[..n]);
    }
  }

  /** Nothing but recording, then one restart. */
  lemma RestartAfterRecords(events: seq<Event>, maxSize: nat)
    requires maxSize > 0 && AllStamped(events)
    ensures var s := Run(Records(events), maxSize);
            && s.window == LastN(events, maxSize) && s.db == Logged(events)
            && (Rebuilt(s.db, maxSize) == s.window <==> Rebuildable(events, maxSize))
  {
    var ops := Records(events);
    assert RestartsHarmless(ops, maxSize);
    hide Run, Rebuildable, Logged, LastN, Records;
    RecordsRecorded(events);
    WindowAlwaysNewestIff(ops, maxSize);
    assert ops[..|ops|] == ops;
    RunLogged(ops, maxSize);
    RestartRebuildsIff(events, maxSize);
  }

  /** While nothing has been trimmed, that condition is ascending keys: two events with one key, or an older event
      recorded later, and the windows differ. */
  lemma RestartNeedsAscendingKeys(events: seq<Event>, maxSize: nat)
    requires AllStamped(events)
    requires |events| <= maxSize <= WARMUP_LIMIT && 0 < maxSize
    ensures var s := Run(Records(events), maxSize);
            Rebuilt(s.db, maxSize) == s.window <==> KeysAscend(events)
  {
    RestartAfterRecords(events, maxSize);
    if KeysAscend(events) {
      AscendingRebuildable(events, maxSize);
    }
    hide Run, Records, Less, Key;
    assert LastN(events, maxSize) == events;
  }

  lemma AscendingStamped(events: seq<Event>)
    requires KeysAscend(events)
    ensures AllStamped(events)
  {
  }

  /** For ascending keys it is the window size: beyond the warm-up limit a restart forgets. */
  lemma RestartNeedsSmallWindow(events: seq<Event>, maxSize: nat)
    requires 0 < maxSize && KeysAscend(events)
    ensures var s := Run(Records(events), maxSize);
            && Rebuilt(s.db, maxSize) == LastN(events, Min(maxSize, WARMUP_LIMIT))
            && (Rebuilt(s.db, maxSize) == s.window <==> maxSize <= WARMUP_LIMIT || |events| <= WARMUP_LIMIT)
  {
    AscendingStamped(events);
    hide Run, Log, LogIs, KeysAscend, Records, LastN, Rebuildable;
    RestartAfterRecords(events, maxSize);
    AscendingRebuildable(events, maxSize);
    LoggedIs(events);
    LogInOrder(Logged(events), events);
    LastNTwice(events, WARMUP_LIMIT, maxSize);
  }

  lemma LogAt(db: map<string, Event>)
    ensures |Log(db)| == |LogKeys(db)|
    ensures forall i | 0 <= i < |LogKeys(db)| :: LogKeys(db)[i] in db && Log(db)[i] == db[LogKeys(db)[i]]
  {
    hide Less;
    forall i | 0 <= i < |LogKeys(db)|
      ensures LogKeys(db)[i] in db
    {
      assert LogKeys(db)[i] in LogKeys(db);
    }
  }

  // ---- The meter with its log ----

  class PersistentMeter {
    const meter: Meter
    var db: map<string, Event>

    ghost predicate Valid()
      reads this, meter
    {
      meter.Valid()
    }

    ghost function Value(): State
      reads this, meter
    {
      State(db, meter.events)
    }

    /** Opening: the newest entries of the log, read backwards, are replayed forwards. */
    constructor (db: map<string, Event>, maxEvents: int)
      requires forall k | k in db :: db[k].timestamp.Some?
      ensures Valid() && this.db == db && fresh(meter)
      ensures meter.maxSize == if maxEvents <= 0 then 10000 else maxEvents
      ensures meter.events == Rebuilt(db, meter.maxSize)
    {
      var m := new Meter(maxEvents);
      meter := m;
      this.db := db;
      new;
      var newestFirst := ReadNewest(db);
      m.Replay(newestFirst, LastN(Log(db), WARMUP_LIMIT));
    }

    /** The reverse iteration with its limit. */
    static method ReadNewest(db: map<string, Event>) returns (newestFirst: seq<Event>)
      requires forall k | k in db :: db[k].timestamp.Some?
      ensures |newestFirst| == |LastN(Log(db), WARMUP_LIMIT)|
      ensures forall i | 0 <= i < |newestFirst| ::
                newestFirst[i] == LastN(Log(db), WARMUP_LIMIT)[|newestFirst| - 1 - i] && newestFirst[i].timestamp.Some?
    {
      LogAt(db);
      hide Less, Log, LogKeys;
      var keys := LogKeys(db);
      newestFirst := [];
      var count := 0;
      while count < |keys|
        invariant 0 <= count <= |keys| && count <= WARMUP_LIMIT && |newestFirst| == count
        invariant forall i | 0 <= i < count :: newestFirst[i] == Log(db)[|keys| - 1 - i]
      {
        if count >= WARMUP_LIMIT {
          break;
        }
        newestFirst := newestFirst + [db[keys[|keys| - 1 - count]]];
        count := count + 1;
      }
      forall i | 0 <= i < |newestFirst|
        ensures newestFirst[i].timestamp.Some?
      {
        assert newestFirst[i] == db[keys[|keys| - 1 - i]];
      }
    }

    method RecordEvent(event: Event, clock: int)
      requires Valid()
      modifies this, meter
      ensures Valid() && Value() == Apply(old(Value()), Record(event, clock), meter.maxSize)
      ensures forall log | old(LogIs(db, log)) && old(meter.events) == LastN(log, meter.maxSize) &&
                           KeysAscend(log + [Stamped(event, clock)]) ::
                && LogIs(db, log + [Stamped(event, clock)])
                && meter.events == LastN(log + [Stamped(event, clock)], meter.maxSize)
    {
      ghost var stamped := Stamped(event, clock);
      forall log | LogIs(db, log) && KeysAscend(log + [stamped])
        ensures LogIs(db[Key(stamped) := stamped], log + [stamped])
        ensures Push(LastN(log, meter.maxSize), stamped, meter.maxSize) == LastN(log + [stamped], meter.maxSize)
      {
        LogAppend(db, log, stamped);
        PushKeepsLast(log, stamped, meter.maxSize);
      }
      hide LogIs, KeysAscend, LastN, Push, Key;
      var e := event;
      if e.timestamp.None? {
        e := e.(timestamp := Some(clock));
      }
      db := db[Key(e) := e];
      meter.Record(e, clock);
    }
  }
}
