/** Many replicas over one database: checks split into their atomic steps, commits between
    any two of them, and invalidations that may be lost, late or repeated. */
module Replicas {
  import opened Schema
  import opened Text
  import opened Resolution
  import opened Transactions
  import opened TenantBootstrap
  import opened Histories
  import opened Ledger
  import opened CacheKey
  import opened DecisionCache
  import opened Service
  import opened Granting

  /** The database so far: store i became current at time since[i]. */
  datatype Timeline = Timeline(history: History, since: seq<int>, now: int)

  /** A read of the grants: which store it saw, and when. */
  datatype Reading = Reading(index: nat, at: int)

  /** Where a decision comes from: the check that made it, its two reads, and its storing. */
  datatype Source = Source(request: Request, read: Reading, versionIndex: nat, storedAt: int)

  /** A cache entry with the history of its making. */
  datatype Tagged = Tagged(entry: Entry, source: Source)

  type ReplicaCache = map<string, Tagged>

  /** A check in progress. */
  datatype Flight =
    | Found(replica: nat, request: Request, tagged: Tagged)
    | Expired(replica: nat, request: Request)
    | Missed(replica: nat, request: Request)
    | Resolving(replica: nat, request: Request, read: Reading, grants: set<Grant>)
    | Versioned(replica: nat, request: Request, read: Reading, grants: set<Grant>, versionIndex: nat, version: nat)

  /** A decision handed to a caller at time `at`. */
  datatype Answer = Answer(request: Request, decision: Decision, source: Source, at: int)

  datatype World = World(time: Timeline, caches: map<nat, ReplicaCache>, flights: map<nat, Flight>,
                         answers: seq<Answer>, asked: set<Request>)

  datatype Action =
    | Tick(delay: nat)
    | Commit(step: Step)
    | LookUp(id: nat, replica: nat, request: Request)
    | TestExpiry(id: nat)
    | Evict(id: nat)
    | ReadGrants(id: nat)
    | ReadVersion(id: nat)
    | StoreAndReturn(id: nat, decision: Decision)
    | Fail(id: nat)
    | Invalidate(replica: nat, keys: set<string>)

  function LatestIndex(t: Timeline): nat
    requires |t.history.stores| > 0
  {
    |t.history.stores| - 1
  }

  function CacheOf(w: World, replica: nat): ReplicaCache {
    if replica in w.caches then w.caches[replica] else map[]
  }

  function Grown(h: History, step: Step): History
    requires |h.stores| > 0
  {
    History(h.stores + [Apply(h.stores[|h.stores| - 1], step.write)], h.steps + [step])
  }

  ghost function Started(w: World, id: nat, replica: nat, r: Request): World {
    var cache := CacheOf(w, replica);
    w.(asked := w.asked + {r},
       flights := w.flights[id := if Key(r) in cache then Found(replica, r, cache[Key(r)]) else Missed(replica, r)])
  }

  /** The end of a check that resolved its grants: the decision is cached and returned. */
  ghost function Stored(w: World, id: nat, replica: nat, r: Request, e: Tagged): World {
    w.(caches := w.caches[replica := CacheOf(w, replica)[Key(r) := e]],
       flights := w.flights - {id},
       answers := w.answers + [Answer(r, e.entry.decision, e.source, w.time.now)])
  }

  function EntryOf(f: Flight, now: int, ttl: int, decision: Decision): Tagged
    requires f.Versioned?
  {
    Tagged(Entry(decision, now + ttl), Source(f.request, f.read, f.versionIndex, now))
  }

  function Tested(w: World, id: nat): World
    requires id in w.flights && w.flights[id].Found?
  {
    var f := w.flights[id];
    if w.time.now < f.tagged.entry.expiresAt then
      w.(flights := w.flights - {id},
         answers := w.answers + [Answer(f.request, f.tagged.entry.decision, f.tagged.source, w.time.now)])
    else w.(flights := w.flights[id := Expired(f.replica, f.request)])
  }

  ghost predicate CommitStep(compiles: string -> bool, w: World, w2: World, step: Step)
    requires |w.time.history.stores| == |w.time.history.steps| + 1
  {
    && w2 == w.(time := Timeline(Grown(w.time.history, step), w.time.since + [w.time.now], w.time.now))
    && ValidStep(w2.time.history, |w.time.history.steps|, compiles)
  }

  /** One atomic step. A mutation inside Commit may have made its checks on any earlier
      store. Invalidate stands for the local invalidations, for messages of other replicas
      whenever they arrive, for repair passes and for restarts; none of them has to happen. */
  ghost predicate Acts(cel: Cel, ttl: int, compiles: string -> bool, w: World, a: Action, w2: World)
    requires |w.time.history.stores| == |w.time.history.steps| + 1
  {
    var latest := w.time.history.stores[LatestIndex(w.time)];
    match a
    case Tick(delay) => w2 == w.(time := w.time.(now := w.time.now + delay))
    case Commit(step) => CommitStep(compiles, w, w2, step)
    case LookUp(id, replica, r) => id !in w.flights && ValidRequest(r) && w2 == Started(w, id, replica, r)
    case TestExpiry(id) => id in w.flights && w.flights[id].Found? && w2 == Tested(w, id)
    case Evict(id) =>
      && id in w.flights && w.flights[id].Expired?
      && var f := w.flights[id];
      w2 == w.(caches := w.caches[f.replica := CacheOf(w, f.replica) - {Key(f.request)}],
               flights := w.flights[id := Missed(f.replica, f.request)])
    case ReadGrants(id) =>
      && id in w.flights && w.flights[id].Missed?
      && var f := w.flights[id];
      w2 == w.(flights := w.flights[id := Resolving(f.replica, f.request, Reading(LatestIndex(w.time), w.time.now),
                                                    Grants(latest, f.request))])
    case ReadVersion(id) =>
      && id in w.flights && w.flights[id].Resolving?
      && var f := w.flights[id];
      w2 == w.(flights := w.flights[id := Versioned(f.replica, f.request, f.read, f.grants, LatestIndex(w.time),
                                                    PolicyVersion(latest, f.request.tenant))])
    case StoreAndReturn(id, decision) =>
      && id in w.flights && w.flights[id].Versioned?
      && var f := w.flights[id];
      && View(decision) == Judge(cel, f.request, f.grants) && Distinct(decision.units)
      && decision.policyVersion == f.version
      && w2 == Stored(w, id, f.replica, f.request, EntryOf(f, w.time.now, ttl, decision))
    case Fail(id) => w2 == w.(flights := w.flights - {id})
    case Invalidate(replica, keys) => w2 == w.(caches := w.caches[replica := CacheOf(w, replica) - keys])
  }

  ghost predicate Initial(w: World) {
    && |w.time.history.stores| == 1 && w.time.history.steps == [] && Untouched(w.time.history.stores[0])
    && w.time.since == [w.time.now] && w.caches == map[] && w.flights == map[] && w.answers == [] && w.asked == {}
  }

  ghost predicate Shaped(w: World) {
    |w.time.history.stores| == |w.time.history.steps| + 1
  }

  ghost predicate Moves(cel: Cel, ttl: int, compiles: string -> bool, w: World, a: Action, w2: World) {
    Shaped(w) && Acts(cel, ttl, compiles, w, a, w2)
  }

  ghost predicate Steps(cel: Cel, ttl: int, compiles: string -> bool, worlds: seq<World>, actions: seq<Action>, i: nat)
    requires i < |actions| < |worlds|
  {
    Moves(cel, ttl, compiles, worlds[i], actions[i], worlds[i + 1])
  }

  /** An execution: worlds linked by actions of any replica in any order. */
  ghost predicate Execution(cel: Cel, ttl: int, compiles: string -> bool, worlds: seq<World>, actions: seq<Action>) {
    && |worlds| == |actions| + 1 && Initial(worlds[0])
    && (forall i :: 0 <= i < |actions| ==> Steps(cel, ttl, compiles, worlds, actions, i))
  }

  // ----- Time -----

  /** Store `i` was the current one at time `t`. */
  predicate Current(since: seq<int>, i: nat, t: int) {
    i < |since| && since[i] <= t && (i + 1 < |since| ==> t <= since[i + 1])
  }

  ghost predicate Chronological(t: Timeline) {
    && |t.since| == |t.history.stores| == |t.history.steps| + 1
    && (forall i, j :: 0 <= i <= j < |t.since| ==> t.since[i] <= t.since[j])
    && t.since[|t.since| - 1] <= t.now
  }

  /** Time only adds: stores, their times, and the clock. */
  ghost predicate Extends(t: Timeline, t2: Timeline) {
    && Chronological(t) && Chronological(t2)
    && t.history.stores <= t2.history.stores && t.since <= t2.since && t.now <= t2.now
    && (|t.since| < |t2.since| ==> t.now <= t2.since[|t.since|])
  }

  ghost predicate ReadOk(t: Timeline, read: Reading) {
    read.index < |t.history.stores| && Current(t.since, read.index, read.at) && read.at <= t.now
  }

  lemma ReadStays(t: Timeline, t2: Timeline, read: Reading)
    requires Extends(t, t2) && ReadOk(t, read)
    ensures ReadOk(t2, read) && t2.history.stores[read.index] == t.history.stores[read.index]
  {
  }

  // ----- The invariant -----

  /** The decision is that of the store its source read, and its tag the version its source read. */
  ghost predicate DecisionOk(cel: Cel, t: Timeline, d: Decision, s: Source) {
    && ReadOk(t, s.read) && s.read.index <= s.versionIndex < |t.history.stores|
    && s.read.at <= s.storedAt <= t.now
    && View(d) == FreshVerdict(cel, t.history.stores[s.read.index], s.request)
    && d.policyVersion == PolicyVersion(t.history.stores[s.versionIndex], s.request.tenant)
  }

  ghost predicate TaggedOk(cel: Cel, ttl: int, t: Timeline, asked: set<Request>, key: string, e: Tagged) {
    && DecisionOk(cel, t, e.entry.decision, e.source)
    && Key(e.source.request) == key && e.source.request in asked
    && e.entry.expiresAt == e.source.storedAt + ttl
  }

  ghost predicate FlightOk(cel: Cel, ttl: int, t: Timeline, asked: set<Request>, f: Flight) {
    && f.request in asked
    && match f
       case Found(_, r, tagged) => TaggedOk(cel, ttl, t, asked, Key(r), tagged)
       case Resolving(_, r, read, grants) => ReadOk(t, read) && grants == Grants(t.history.stores[read.index], r)
       case Versioned(_, r, read, grants, versionIndex, version) =>
         && ReadOk(t, read) && grants == Grants(t.history.stores[read.index], r)
         && read.index <= versionIndex < |t.history.stores|
         && version == PolicyVersion(t.history.stores[versionIndex], r.tenant)
       case _ => true
  }

  /** The answer was current when its grants were read, and that moment lies back by less
      than the TTL plus the time its maker took from the read to the store. */
  ghost predicate AnswerOk(cel: Cel, ttl: int, t: Timeline, asked: set<Request>, a: Answer) {
    && DecisionOk(cel, t, a.decision, a.source)
    && Key(a.source.request) == Key(a.request) && a.source.request in asked && a.request in asked
    && a.source.storedAt <= a.at <= t.now
    && a.at - a.source.read.at < ttl + (a.source.storedAt - a.source.read.at)
  }

  ghost predicate CacheOk(cel: Cel, ttl: int, t: Timeline, asked: set<Request>, cache: ReplicaCache) {
    forall key :: key in cache ==> TaggedOk(cel, ttl, t, asked, key, cache[key])
  }

  ghost predicate CachesOk(cel: Cel, ttl: int, w: World) {
    forall replica :: replica in w.caches ==> CacheOk(cel, ttl, w.time, w.asked, w.caches[replica])
  }

  ghost predicate FlightsOk(cel: Cel, ttl: int, w: World) {
    forall id :: id in w.flights ==> FlightOk(cel, ttl, w.time, w.asked, w.flights[id])
  }

  ghost predicate AnswersOk(cel: Cel, ttl: int, w: World) {
    forall i :: 0 <= i < |w.answers| ==> AnswerOk(cel, ttl, w.time, w.asked, w.answers[i])
  }

  ghost predicate WorldOk(cel: Cel, ttl: int, w: World) {
    Chronological(w.time) && CachesOk(cel, ttl, w) && FlightsOk(cel, ttl, w) && AnswersOk(cel, ttl, w)
  }

  // ----- The invariant survives the passing of time -----

  lemma TaggedStays(cel: Cel, ttl: int, t: Timeline, t2: Timeline, asked: set<Request>, asked2: set<Request>,
                    key: string, e: Tagged)
    requires Extends(t, t2) && asked <= asked2 && TaggedOk(cel, ttl, t, asked, key, e)
    ensures TaggedOk(cel, ttl, t2, asked2, key, e)
  {
    ReadStays(t, t2, e.source.read);
  }

  lemma FlightStays(cel: Cel, ttl: int, t: Timeline, t2: Timeline, asked: set<Request>, asked2: set<Request>, f: Flight)
    requires Extends(t, t2) && asked <= asked2 && FlightOk(cel, ttl, t, asked, f)
    ensures FlightOk(cel, ttl, t2, asked2, f)
  {
    match f
    case Found(_, r, tagged) => TaggedStays(cel, ttl, t, t2, asked, asked2, Key(r), tagged);
    case Resolving(_, _, read, _) => ReadStays(t, t2, read);
    case Versioned(_, _, read, _, _, _) => ReadStays(t, t2, read);
    case _ =>
  }

  lemma AnswerStays(cel: Cel, ttl: int, t: Timeline, t2: Timeline, asked: set<Request>, asked2: set<Request>, a: Answer)
    requires Extends(t, t2) && asked <= asked2 && AnswerOk(cel, ttl, t, asked, a)
    ensures AnswerOk(cel, ttl, t2, asked2, a)
  {
    ReadStays(t, t2, a.source.read);
  }

  lemma WorldStays(cel: Cel, ttl: int, w: World, w2: World)
    requires WorldOk(cel, ttl, w) && Extends(w.time, w2.time) && w.asked <= w2.asked
    requires w2.caches == w.caches && w2.flights == w.flights && w2.answers == w.answers
    ensures WorldOk(cel, ttl, w2)
  {
    forall replica, key | replica in w.caches && key in w.caches[replica]
      ensures TaggedOk(cel, ttl, w2.time, w2.asked, key, w.caches[replica][key])
    {
      assert CacheOk(cel, ttl, w.time, w.asked, w.caches[replica]);
      TaggedStays(cel, ttl, w.time, w2.time, w.asked, w2.asked, key, w.caches[replica][key]);
    }
    forall id | id in w.flights ensures FlightOk(cel, ttl, w2.time, w2.asked, w.flights[id]) {
      FlightStays(cel, ttl, w.time, w2.time, w.asked, w2.asked, w.flights[id]);
    }
    forall i | 0 <= i < |w.answers| ensures AnswerOk(cel, ttl, w2.time, w2.asked, w.answers[i]) {
      AnswerStays(cel, ttl, w.time, w2.time, w.asked, w2.asked, w.answers[i]);
    }
  }

  // ----- Every action keeps the invariant -----

  lemma OneFlight(cel: Cel, ttl: int, w: World, id: nat, f: Flight)
    requires WorldOk(cel, ttl, w) && FlightOk(cel, ttl, w.time, w.asked, f)
    ensures WorldOk(cel, ttl, w.(flights := w.flights[id := f]))
  {
  }

  lemma FlightEnds(cel: Cel, ttl: int, w: World, id: nat)
    requires WorldOk(cel, ttl, w)
    ensures WorldOk(cel, ttl, w.(flights := w.flights - {id}))
  {
  }

  lemma OneAnswer(cel: Cel, ttl: int, w: World, a: Answer)
    requires WorldOk(cel, ttl, w) && AnswerOk(cel, ttl, w.time, w.asked, a)
    ensures WorldOk(cel, ttl, w.(answers := w.answers + [a]))
  {
  }

  lemma OneCache(cel: Cel, ttl: int, w: World, replica: nat, cache: ReplicaCache)
    requires WorldOk(cel, ttl, w) && CacheOk(cel, ttl, w.time, w.asked, cache)
    ensures WorldOk(cel, ttl, w.(caches := w.caches[replica := cache]))
  {
  }

  lemma CacheIsOk(cel: Cel, ttl: int, w: World, replica: nat)
    requires WorldOk(cel, ttl, w)
    ensures CacheOk(cel, ttl, w.time, w.asked, CacheOf(w, replica))
  {
  }

  lemma LookUpKeeps(cel: Cel, ttl: int, w: World, id: nat, replica: nat, r: Request)
    requires WorldOk(cel, ttl, w)
    ensures WorldOk(cel, ttl, Started(w, id, replica, r))
  {
    var w2, cache := w.(asked := w.asked + {r}), CacheOf(w, replica);
    WorldStays(cel, ttl, w, w2);
    CacheIsOk(cel, ttl, w2, replica);
    OneFlight(cel, ttl, w2, id, if Key(r) in cache then Found(replica, r, cache[Key(r)]) else Missed(replica, r));
  }

  lemma TestKeeps(cel: Cel, ttl: int, w: World, id: nat)
    requires WorldOk(cel, ttl, w) && id in w.flights && w.flights[id].Found?
    ensures WorldOk(cel, ttl, Tested(w, id))
  {
    var f := w.flights[id];
    assert FlightOk(cel, ttl, w.time, w.asked, f);
    if w.time.now < f.tagged.entry.expiresAt {
      FlightEnds(cel, ttl, w, id);
      OneAnswer(cel, ttl, w.(flights := w.flights - {id}),
                Answer(f.request, f.tagged.entry.decision, f.tagged.source, w.time.now));
    } else {
      OneFlight(cel, ttl, w, id, Expired(f.replica, f.request));
    }
  }

  lemma VersionedDecision(cel: Cel, ttl: int, t: Timeline, asked: set<Request>, f: Flight, d: Decision)
    requires FlightOk(cel, ttl, t, asked, f) && f.Versioned? && ttl > 0
    requires View(d) == Judge(cel, f.request, f.grants) && d.policyVersion == f.version
    ensures
      var e := EntryOf(f, t.now, ttl, d);
      && TaggedOk(cel, ttl, t, asked, Key(f.request), e)
      && AnswerOk(cel, ttl, t, asked, Answer(f.request, d, e.source, t.now))
  {
  }

  lemma OneEntry(cel: Cel, ttl: int, w: World, replica: nat, key: string, e: Tagged)
    requires WorldOk(cel, ttl, w) && TaggedOk(cel, ttl, w.time, w.asked, key, e)
    ensures WorldOk(cel, ttl, w.(caches := w.caches[replica := CacheOf(w, replica)[key := e]]))
  {
    CacheIsOk(cel, ttl, w, replica);
    OneCache(cel, ttl, w, replica, CacheOf(w, replica)[key := e]);
  }

  lemma StoredKeeps(cel: Cel, ttl: int, w: World, id: nat, replica: nat, r: Request, e: Tagged)
    requires WorldOk(cel, ttl, w) && TaggedOk(cel, ttl, w.time, w.asked, Key(r), e)
    requires AnswerOk(cel, ttl, w.time, w.asked, Answer(r, e.entry.decision, e.source, w.time.now))
    ensures WorldOk(cel, ttl, Stored(w, id, replica, r, e))
  {
    OneEntry(cel, ttl, w, replica, Key(r), e);
    var w1 := w.(caches := w.caches[replica := CacheOf(w, replica)[Key(r) := e]]);
    FlightEnds(cel, ttl, w1, id);
    OneAnswer(cel, ttl, w1.(flights := w.flights - {id}), Answer(r, e.entry.decision, e.source, w.time.now));
  }

  lemma StoreKeeps(cel: Cel, ttl: int, w: World, id: nat, d: Decision)
    requires WorldOk(cel, ttl, w) && id in w.flights && w.flights[id].Versioned? && ttl > 0
    requires View(d) == Judge(cel, w.flights[id].request, w.flights[id].grants)
             && d.policyVersion == w.flights[id].version
    ensures
      var f := w.flights[id];
      WorldOk(cel, ttl, Stored(w, id, f.replica, f.request, EntryOf(f, w.time.now, ttl, d)))
  {
    var f := w.flights[id];
    assert FlightOk(cel, ttl, w.time, w.asked, f);
    VersionedDecision(cel, ttl, w.time, w.asked, f, d);
    StoredKeeps(cel, ttl, w, id, f.replica, f.request, EntryOf(f, w.time.now, ttl, d));
  }

  lemma RemovalKeeps(cel: Cel, ttl: int, w: World, replica: nat, keys: set<string>)
    requires WorldOk(cel, ttl, w)
    ensures WorldOk(cel, ttl, w.(caches := w.caches[replica := CacheOf(w, replica) - keys]))
  {
    CacheIsOk(cel, ttl, w, replica);
    OneCache(cel, ttl, w, replica, CacheOf(w, replica) - keys);
  }

  lemma ReadKeeps(cel: Cel, ttl: int, compiles: string -> bool, w: World, a: Action, w2: World)
    requires WorldOk(cel, ttl, w) && (a.ReadGrants? || a.ReadVersion?) && Acts(cel, ttl, compiles, w, a, w2)
    ensures WorldOk(cel, ttl, w2)
  {
    var f := w.flights[a.id];
    assert FlightOk(cel, ttl, w.time, w.asked, f);
    assert Current(w.time.since, LatestIndex(w.time), w.time.now);
    OneFlight(cel, ttl, w, a.id, w2.flights[a.id]);
  }

  lemma TimeKeeps(cel: Cel, ttl: int, compiles: string -> bool, w: World, a: Action, w2: World)
    requires WorldOk(cel, ttl, w) && (a.Tick? || a.Commit?) && Acts(cel, ttl, compiles, w, a, w2)
    ensures WorldOk(cel, ttl, w2)
  {
    assert Extends(w.time, w2.time);
    WorldStays(cel, ttl, w, w2);
  }

  lemma NextKeeps(cel: Cel, ttl: int, compiles: string -> bool, w: World, a: Action, w2: World)
    requires WorldOk(cel, ttl, w) && ttl > 0 && Acts(cel, ttl, compiles, w, a, w2)
    ensures WorldOk(cel, ttl, w2)
  {
    match a
    case Tick(_) => TimeKeeps(cel, ttl, compiles, w, a, w2);
    case Commit(_) => TimeKeeps(cel, ttl, compiles, w, a, w2);
    case LookUp(id, replica, r) => LookUpKeeps(cel, ttl, w, id, replica, r);
    case TestExpiry(id) => TestKeeps(cel, ttl, w, id);
    case Evict(id) =>
      var f := w.flights[id];
      assert FlightOk(cel, ttl, w.time, w.asked, f);
      OneFlight(cel, ttl, w, id, Missed(f.replica, f.request));
      RemovalKeeps(cel, ttl, w.(flights := w.flights[id := Missed(f.replica, f.request)]), f.replica, {Key(f.request)});
    case ReadGrants(_) => ReadKeeps(cel, ttl, compiles, w, a, w2);
    case ReadVersion(_) => ReadKeeps(cel, ttl, compiles, w, a, w2);
    case StoreAndReturn(id, decision) => StoreKeeps(cel, ttl, w, id, decision);
    case Fail(id) => FlightEnds(cel, ttl, w, id);
    case Invalidate(replica, keys) => RemovalKeeps(cel, ttl, w, replica, keys);
  }

  lemma {:induction false} ExecutionsAreOk(cel: Cel, ttl: int, compiles: string -> bool, worlds: seq<World>,
                                           actions: seq<Action>, n: nat)
    requires Execution(cel, ttl, compiles, worlds, actions) && ttl > 0 && n < |worlds|
    ensures WorldOk(cel, ttl, worlds[n])
  {
    if n > 0 {
      ExecutionsAreOk(cel, ttl, compiles, worlds, actions, n - 1);
      assert Steps(cel, ttl, compiles, worlds, actions, n - 1);
      NextKeeps(cel, ttl, compiles, worlds[n - 1], actions[n - 1], worlds[n]);
    }
  }

  // ----- The database of an execution is a run of the writers -----

  lemma PrefixStep(h: History, step: Step, compiles: string -> bool, i: nat)
    requires |h.stores| == |h.steps| + 1 && i < |h.steps| && ValidStep(h, i, compiles)
    ensures ValidStep(Grown(h, step), i, compiles)
  {
    var g := Grown(h, step);
    assert g.steps[i] == h.steps[i] && g.stores[i] == h.stores[i] && g.stores[i + 1] == h.stores[i + 1];
    if h.steps[i].write.Mutation? {
      assert g.stores[h.steps[i].origin.value.snapshot] == h.stores[h.steps[i].origin.value.snapshot];
    }
  }

  lemma CommitKeepsHistory(compiles: string -> bool, w: World, w2: World, step: Step)
    requires ValidHistory(w.time.history, compiles) && CommitStep(compiles, w, w2, step)
    ensures ValidHistory(w2.time.history, compiles)
  {
    var h := w.time.history;
    forall i | 0 <= i < |w2.time.history.steps| ensures ValidStep(w2.time.history, i, compiles) {
      if i < |h.steps| {
        PrefixStep(h, step, compiles, i);
      }
    }
  }

  lemma OnlyCommitsWrite(cel: Cel, ttl: int, compiles: string -> bool, w: World, a: Action, w2: World)
    requires Shaped(w) && Acts(cel, ttl, compiles, w, a, w2) && !a.Commit?
    ensures w2.time.history == w.time.history
  {
  }

  lemma {:induction false} ExecutionsAreHistories(cel: Cel, ttl: int, compiles: string -> bool, worlds: seq<World>,
                                                  actions: seq<Action>, n: nat)
    requires Execution(cel, ttl, compiles, worlds, actions) && n < |worlds|
    ensures ValidHistory(worlds[n].time.history, compiles)
  {
    if n > 0 {
      var w, a := worlds[n - 1], actions[n - 1];
      ExecutionsAreHistories(cel, ttl, compiles, worlds, actions, n - 1);
      assert Steps(cel, ttl, compiles, worlds, actions, n - 1);
      if a.Commit? {
        CommitKeepsHistory(compiles, w, worlds[n], a.step);
      } else {
        OnlyCommitsWrite(cel, ttl, compiles, w, a, worlds[n]);
      }
    }
  }

  // ----- Theorems -----

  /** No two of the requests share a key; proper requests never do. */
  ghost predicate NoSharedKeys(asked: set<Request>) {
    forall q, r :: q in asked && r in asked && Key(q) == Key(r) ==> q == r
  }

  /** Bounded staleness: in every interleaving, whatever is returned is the decision of a
      store that was current when its grants were read, and that read lies back by less than
      the TTL plus the entry's own time from read to store. */
  lemma BoundedStaleness(cel: Cel, ttl: int, compiles: string -> bool, worlds: seq<World>, actions: seq<Action>, n: nat,
                         k: nat)
    requires Execution(cel, ttl, compiles, worlds, actions) && ttl > 0 && n < |worlds| && k < |worlds[n].answers|
    requires NoSharedKeys(worlds[n].asked)
    ensures
      var t, a := worlds[n].time, worlds[n].answers[k];
      && a.source.read.index < |t.history.stores|
      && View(a.decision) == FreshVerdict(cel, t.history.stores[a.source.read.index], a.request)
      && Current(t.since, a.source.read.index, a.source.read.at)
      && a.source.read.at <= a.source.storedAt <= a.at <= t.now
      && a.at - a.source.read.at < ttl + (a.source.storedAt - a.source.read.at)
  {
    ExecutionsAreOk(cel, ttl, compiles, worlds, actions, n);
    var a := worlds[n].answers[k];
    assert AnswerOk(cel, ttl, worlds[n].time, worlds[n].asked, a);
  }

  /** Version-tag law: a cached decision's policy version is the one in force when its grants
      were read plus the commits of its tenant between the two reads of Resolve. */
  lemma VersionTagLaw(cel: Cel, ttl: int, compiles: string -> bool, worlds: seq<World>, actions: seq<Action>, n: nat,
                      replica: nat, key: string)
    requires Execution(cel, ttl, compiles, worlds, actions) && ttl > 0 && n < |worlds|
    requires replica in worlds[n].caches && key in worlds[n].caches[replica]
    ensures
      var h, e := worlds[n].time.history, worlds[n].caches[replica][key];
      var tenant, s := e.source.request.tenant, e.source;
      && s.read.index <= s.versionIndex <= |h.steps| < |h.stores|
      && e.entry.decision.policyVersion ==
         PolicyVersion(h.stores[s.read.index], tenant) + CommitsBetween(h, tenant, s.read.index, s.versionIndex)
  {
    var h, e := worlds[n].time.history, worlds[n].caches[replica][key];
    ExecutionsAreOk(cel, ttl, compiles, worlds, actions, n);
    assert CacheOk(cel, ttl, worlds[n].time, worlds[n].asked, worlds[n].caches[replica]);
    assert TaggedOk(cel, ttl, worlds[n].time, worlds[n].asked, key, e);
    ExecutionsAreHistories(cel, ttl, compiles, worlds, actions, n);
    VersionGrowth(h, compiles, e.source.request.tenant, e.source.read.index, e.source.versionIndex);
  }

  /** From store `i` on, no write of `tenant` took effect. */
  ghost predicate QuietFrom(h: History, tenant: string, i: nat)
    requires |h.steps| < |h.stores|
  {
    forall j :: i <= j < |h.steps| ==> !EffectiveStep(h, j, tenant)
  }

  lemma QuietStep(h: History, compiles: string -> bool, r: Request, i: nat)
    requires ValidHistory(h, compiles) && i < |h.steps| && !EffectiveStep(h, i, r.tenant)
    ensures Grants(h.stores[i + 1], r) == Grants(h.stores[i], r)
  {
    ReachableStep(h, compiles, i);
    assert ValidStep(h, i, compiles);
    if Target(h.steps[i].write) != r.tenant {
      OtherTenantsUnaffected(h.stores[i], h.steps[i].write, r);
    } else {
      RolledBackChangesNothing(h.stores[i], h.steps[i].write);
    }
  }

  lemma {:induction false} QuietGrants(h: History, compiles: string -> bool, r: Request, i: nat)
    requires ValidHistory(h, compiles) && i <= |h.steps| && QuietFrom(h, r.tenant, i)
    ensures Grants(h.stores[|h.steps|], r) == Grants(h.stores[i], r)
    decreases |h.steps| - i
  {
    if i < |h.steps| {
      QuietStep(h, compiles, r, i);
      QuietGrants(h, compiles, r, i + 1);
    }
  }

  /** No write of `tenant` took effect later than `bound`. */
  ghost predicate QuietSince(t: Timeline, tenant: string, bound: int) {
    |t.history.steps| < |t.history.stores| <= |t.since| ==>
      forall j :: 0 <= j < |t.history.steps| && EffectiveStep(t.history, j, tenant) ==> t.since[j + 1] <= bound
  }

  lemma LaterStoresAreLater(t: Timeline, read: Reading, bound: int, tenant: string)
    requires Chronological(t) && ReadOk(t, read) && bound < read.at && QuietSince(t, tenant, bound)
    ensures QuietFrom(t.history, tenant, read.index)
  {
    forall j | read.index <= j < |t.history.steps| ensures !EffectiveStep(t.history, j, tenant) {
      assert t.since[read.index + 1] <= t.since[j + 1];
    }
  }

  /** However many messages were lost, an answer is exact if no write of its tenant took
      effect during the TTL and the read-to-store time before it. */
  lemma QuietTenantsAreExact(cel: Cel, ttl: int, compiles: string -> bool, worlds: seq<World>, actions: seq<Action>,
                             n: nat, k: nat)
    requires Execution(cel, ttl, compiles, worlds, actions) && ttl > 0 && n < |worlds| && k < |worlds[n].answers|
    requires NoSharedKeys(worlds[n].asked)
    requires
      var a := worlds[n].answers[k];
      QuietSince(worlds[n].time, a.request.tenant, a.at - ttl - (a.source.storedAt - a.source.read.at))
    ensures
      var h, a := worlds[n].time.history, worlds[n].answers[k];
      |h.stores| == |h.steps| + 1 && View(a.decision) == FreshVerdict(cel, h.stores[|h.steps|], a.request)
  {
    var t, a := worlds[n].time, worlds[n].answers[k];
    ExecutionsAreOk(cel, ttl, compiles, worlds, actions, n);
    BoundedStaleness(cel, ttl, compiles, worlds, actions, n, k);
    LaterStoresAreLater(t, a.source.read, a.at - ttl - (a.source.storedAt - a.source.read.at), a.request.tenant);
    ExecutionsAreHistories(cel, ttl, compiles, worlds, actions, n);
    QuietGrants(t.history, compiles, a.request, a.source.read.index);
  }

  /** The invalidations of the service are steps of the Invalidate action. */
  lemma InvalidationsAreSteps(cel: Cel, ttl: int, compiles: string -> bool, w: World, replica: nat,
                              tenant: string, subject: string, t: SubjectType)
    requires Shaped(w)
    ensures exists keys :: Acts(cel, ttl, compiles, w, Invalidate(replica, keys),
              w.(caches := w.caches[replica := TenantInvalidated(CacheOf(w, replica), tenant)]))
    ensures exists keys :: Acts(cel, ttl, compiles, w, Invalidate(replica, keys),
              w.(caches := w.caches[replica := SubjectInvalidated(CacheOf(w, replica), tenant, subject, t)]))
  {
    var cache := CacheOf(w, replica);
    RemovalIsStep(cel, ttl, compiles, w, replica, TenantInvalidated(cache, tenant));
    RemovalIsStep(cel, ttl, compiles, w, replica, SubjectInvalidated(cache, tenant, subject, t));
  }

  lemma RemovalIsStep(cel: Cel, ttl: int, compiles: string -> bool, w: World, replica: nat, left: ReplicaCache)
    requires Shaped(w) && left.Keys <= CacheOf(w, replica).Keys
    requires forall k :: k in left ==> left[k] == CacheOf(w, replica)[k]
    ensures exists keys :: Acts(cel, ttl, compiles, w, Invalidate(replica, keys),
                                w.(caches := w.caches[replica := left]))
  {
    var keys := CacheOf(w, replica).Keys - left.Keys;
    assert left == CacheOf(w, replica) - keys;
    assert Acts(cel, ttl, compiles, w, Invalidate(replica, keys), w.(caches := w.caches[replica := left]));
  }

  // ----- What a current tag says -----

  lemma {:induction false} NoCommitsIsQuiet(h: History, tenant: string, i: nat, j: nat)
    requires i <= j <= |h.steps| < |h.stores| && CommitsBetween(h, tenant, i, j) == 0
    ensures forall k :: i <= k < j ==> !EffectiveStep(h, k, tenant)
    decreases j
  {
    if i < j {
      NoCommitsIsQuiet(h, tenant, i, j - 1);
    }
  }

  ghost predicate Reads(h: History, s: Source) {
    s.read.index <= s.versionIndex <= |h.steps| < |h.stores|
  }

  /** A tag equal to the current version only says that nothing was committed since the version
      read. The entry is then fresh exactly if the commits between the two reads left the
      decision as it was, in particular if there were none. */
  lemma CurrentTag(cel: Cel, ttl: int, compiles: string -> bool, worlds: seq<World>, actions: seq<Action>, n: nat,
                   replica: nat, key: string)
    requires Execution(cel, ttl, compiles, worlds, actions) && ttl > 0 && n < |worlds|
    requires replica in worlds[n].caches && key in worlds[n].caches[replica]
    ensures
      var h, e := worlds[n].time.history, worlds[n].caches[replica][key];
      var tenant, s := e.source.request.tenant, e.source;
      && Reads(h, s)
      && (e.entry.decision.policyVersion == PolicyVersion(h.stores[|h.steps|], tenant) <==>
            CommitsBetween(h, tenant, s.versionIndex, |h.steps|) == 0)
      && (e.entry.decision.policyVersion == PolicyVersion(h.stores[|h.steps|], tenant)
          && CommitsBetween(h, tenant, s.read.index, s.versionIndex) == 0 ==>
            View(e.entry.decision) == FreshVerdict(cel, h.stores[|h.steps|], s.request))
      && (e.entry.decision.policyVersion == PolicyVersion(h.stores[|h.steps|], tenant) ==>
            (View(e.entry.decision) == FreshVerdict(cel, h.stores[|h.steps|], s.request) <==>
             FreshVerdict(cel, h.stores[s.read.index], s.request) ==
             FreshVerdict(cel, h.stores[s.versionIndex], s.request)))
  {
    var h, e := worlds[n].time.history, worlds[n].caches[replica][key];
    var tenant, s := e.source.request.tenant, e.source;
    EntryIsOk(cel, ttl, compiles, worlds, actions, n, replica, key);
    VersionTagLaw(cel, ttl, compiles, worlds, actions, n, replica, key);
    ExecutionsAreHistories(cel, ttl, compiles, worlds, actions, n);
    VersionGrowth(h, compiles, tenant, s.read.index, s.versionIndex);
    VersionGrowth(h, compiles, tenant, s.versionIndex, |h.steps|);
    if CommitsBetween(h, tenant, s.versionIndex, |h.steps|) == 0 {
      NoCommitsIsQuiet(h, tenant, s.versionIndex, |h.steps|);
      QuietGrants(h, compiles, s.request, s.versionIndex);
      if CommitsBetween(h, tenant, s.read.index, s.versionIndex) == 0 {
        NoCommitsIsQuiet(h, tenant, s.read.index, s.versionIndex);
        QuietGrants(h, compiles, s.request, s.read.index);
      }
    }
  }

  lemma EntryIsOk(cel: Cel, ttl: int, compiles: string -> bool, worlds: seq<World>, actions: seq<Action>, n: nat,
                  replica: nat, key: string)
    requires Execution(cel, ttl, compiles, worlds, actions) && ttl > 0 && n < |worlds|
    requires replica in worlds[n].caches && key in worlds[n].caches[replica]
    ensures TaggedOk(cel, ttl, worlds[n].time, worlds[n].asked, key, worlds[n].caches[replica][key])
  {
    ExecutionsAreOk(cel, ttl, compiles, worlds, actions, n);
    assert CacheOk(cel, ttl, worlds[n].time, worlds[n].asked, worlds[n].caches[replica]);
  }

  // ----- Polls -----

  /** The entries of a replica's cache as the service holds them. */
  function Entries(cache: ReplicaCache): Cache {
    map k | k in cache :: cache[k].entry
  }

  /** No tag is ahead of the current version. */
  lemma TagsAreBounded(cel: Cel, ttl: int, compiles: string -> bool, worlds: seq<World>, actions: seq<Action>, n: nat,
                       replica: nat, key: string)
    requires Execution(cel, ttl, compiles, worlds, actions) && ttl > 0 && n < |worlds|
    requires replica in worlds[n].caches && key in worlds[n].caches[replica]
    ensures
      var h, e := worlds[n].time.history, worlds[n].caches[replica][key];
      && |h.stores| == |h.steps| + 1
      && e.entry.decision.policyVersion <= PolicyVersion(h.stores[|h.steps|], e.source.request.tenant)
  {
    var h, e := worlds[n].time.history, worlds[n].caches[replica][key];
    EntryIsOk(cel, ttl, compiles, worlds, actions, n, replica, key);
    ExecutionsAreHistories(cel, ttl, compiles, worlds, actions, n);
    VersionGrowth(h, compiles, e.source.request.tenant, e.source.versionIndex, |h.steps|);
  }

  /** The requests name trimmed tenants without NUL. */
  ghost predicate TidyTenants(asked: set<Request>) {
    forall r :: r in asked ==> NulFree(r.tenant) && Trimmed(r.tenant)
  }

  lemma EntryTenant(cel: Cel, ttl: int, compiles: string -> bool, worlds: seq<World>, actions: seq<Action>, n: nat,
                    replica: nat, key: string)
    requires Execution(cel, ttl, compiles, worlds, actions) && ttl > 0 && n < |worlds| && TidyTenants(worlds[n].asked)
    requires replica in worlds[n].caches && key in worlds[n].caches[replica]
    ensures NamesTenant(key) && Trimmed(Cut(key)) && Cut(key) == worlds[n].caches[replica][key].source.request.tenant
  {
    EntryIsOk(cel, ttl, compiles, worlds, actions, n, replica, key);
    KeyNamesTenant(worlds[n].caches[replica][key].source.request);
  }

  /** A poll that answers the current versions keeps every entry whose tag is current, fresh or
      not: until the tenant's next commit only the TTL removes it. */
  lemma PollKeepsCurrentTags(cel: Cel, ttl: int, compiles: string -> bool, worlds: seq<World>, actions: seq<Action>,
                             n: nat, replica: nat, key: string, versions: map<string, nat>, poll: string -> Option<nat>)
    requires Execution(cel, ttl, compiles, worlds, actions) && ttl > 0 && n < |worlds| && TidyTenants(worlds[n].asked)
    requires replica in worlds[n].caches && key in worlds[n].caches[replica]
    requires Maxima(Entries(worlds[n].caches[replica]), versions) && |worlds[n].time.history.stores| > 0
    requires
      var stores := worlds[n].time.history.stores;
      (forall t :: poll(t) == Some(PolicyVersion(stores[|stores| - 1], t)))
      && worlds[n].caches[replica][key].entry.decision.policyVersion == PolicyVersion(stores[|stores| - 1], Cut(key))
    ensures key in Repaired(Entries(worlds[n].caches[replica]), versions, poll)
  {
    var cache, stores := Entries(worlds[n].caches[replica]), worlds[n].time.history.stores;
    var current := PolicyVersion(stores[|stores| - 1], Cut(key));
    forall k | k in cache
      ensures NamesTenant(k) && Trimmed(Cut(k))
      ensures Cut(k) == Cut(key) ==> cache[k].decision.policyVersion <= current
    {
      EntryTenant(cel, ttl, compiles, worlds, actions, n, replica, k);
      TagsAreBounded(cel, ttl, compiles, worlds, actions, n, replica, k);
    }
    GreatestTagIsCurrent(cache, versions, key, current);
    RepairExact(cache, versions, poll, key);
  }

  lemma GreatestTagIsCurrent(cache: Cache, versions: map<string, nat>, key: string, current: nat)
    requires Maxima(cache, versions) && key in cache && cache[key].decision.policyVersion == current
    requires forall k :: k in cache && Cut(k) == Cut(key) ==> cache[k].decision.policyVersion <= current
    ensures Cut(key) in versions && versions[Cut(key)] == current
  {
    assert Cut(key) in Tenants(cache);
    assert current in Tags(cache, Cut(key));
    assert versions[Cut(key)] in Tags(cache, Cut(key));
  }

  // ----- A check without interference -----

  /** What the service sees of a replica: the latest store and the entries. */
  function NodeOf(w: World, replica: nat): Node
    requires Shaped(w)
  {
    Node(w.time.history.stores[LatestIndex(w.time)], Entries(CacheOf(w, replica)))
  }

  /** From a missed look-up in `w`, the decision on the latest store was stored and answered. */
  ghost predicate Resolved(cel: Cel, ttl: int, w: World, w2: World, id: nat, replica: nat, r: Request, d: Decision) {
    && Shaped(w) && Shaped(w2) && w2.time == w.time
    && View(d) == FreshVerdict(cel, NodeOf(w, replica).store, r) && Distinct(d.units)
    && d.policyVersion == PolicyVersion(NodeOf(w, replica).store, r.tenant)
    && NodeOf(w2, replica).cache == NodeOf(w, replica).cache[Key(r) := Entry(d, w.time.now + ttl)]
    && w2.flights == w.flights - {id} && |w2.answers| == |w.answers| + 1
    && w2.answers[|w.answers|].request == r && w2.answers[|w.answers|].decision == d
  }

  /** From a missed look-up in `w`, grants and version were read off the latest store. */
  ghost predicate BothRead(w: World, w2: World, id: nat, replica: nat, r: Request) {
    && Shaped(w)
    && var latest, i := NodeOf(w, replica).store, LatestIndex(w.time);
    w2 == w.(flights := w.flights[id := Versioned(replica, r, Reading(i, w.time.now), Grants(latest, r), i,
                                                  PolicyVersion(latest, r.tenant))])
  }

  /** The two reads of a check, with nothing in between. */
  lemma ReadsAtOnce(cel: Cel, ttl: int, compiles: string -> bool, w0: World, w1: World, w2: World,
                    id: nat, replica: nat, r: Request)
    requires Shaped(w0) && id in w0.flights && w0.flights[id] == Missed(replica, r)
    requires Moves(cel, ttl, compiles, w0, ReadGrants(id), w1) && Moves(cel, ttl, compiles, w1, ReadVersion(id), w2)
    ensures BothRead(w0, w2, id, replica, r)
  {
  }

  /** Reading and storing, with nothing in between. */
  lemma ResolvedAtOnce(cel: Cel, ttl: int, compiles: string -> bool, w0: World, w2: World, w3: World, id: nat,
                       replica: nat, r: Request, d: Decision)
    requires BothRead(w0, w2, id, replica, r) && Moves(cel, ttl, compiles, w2, StoreAndReturn(id, d), w3)
    ensures Resolved(cel, ttl, w0, w3, id, replica, r, d)
  {
    StoredAtOnce(cel, ttl, compiles, w2, w3, id, d);
    assert w3.flights == w0.flights - {id};
  }

  lemma StoredAtOnce(cel: Cel, ttl: int, compiles: string -> bool, w: World, w2: World, id: nat, d: Decision)
    requires Moves(cel, ttl, compiles, w, StoreAndReturn(id, d), w2)
    ensures
      var f := w.flights[id];
      && View(d) == Judge(cel, f.request, f.grants) && Distinct(d.units) && d.policyVersion == f.version
      && Shaped(w2) && w2.time == w.time && w2.flights == w.flights - {id}
      && Entries(CacheOf(w2, f.replica)) == Entries(CacheOf(w, f.replica))[Key(f.request) := Entry(d, w.time.now + ttl)]
      && |w2.answers| == |w.answers| + 1
      && w2.answers[|w.answers|].request == f.request && w2.answers[|w.answers|].decision == d
  {
  }

  /** A hit, undisturbed, is the service's check: a live entry is answered as it is. */
  lemma HitAtOnce(cel: Cel, ttl: int, compiles: string -> bool, w0: World, w1: World, w2: World, id: nat, replica: nat,
                  r: Request)
    requires Moves(cel, ttl, compiles, w0, LookUp(id, replica, r), w1) && Key(r) in CacheOf(w0, replica)
    requires Moves(cel, ttl, compiles, w1, TestExpiry(id), w2)
    requires w0.time.now < CacheOf(w0, replica)[Key(r)].entry.expiresAt
    ensures
      var d := CacheOf(w0, replica)[Key(r)].entry.decision;
      && Shaped(w2) && CheckStep(cel, ttl, NodeOf(w0, replica), r, w0.time.now, NodeOf(w2, replica), Returned(d, true))
      && w2.flights == w0.flights && |w2.answers| == |w0.answers| + 1
      && w2.answers[|w0.answers|].request == r && w2.answers[|w0.answers|].decision == d
  {
    assert w2.flights == w0.flights;
  }

  /** A miss, undisturbed, is the service's check: the fresh decision is answered and cached. */
  lemma MissAtOnce(cel: Cel, ttl: int, compiles: string -> bool, w0: World, w1: World, w2: World, id: nat, replica: nat,
                   r: Request, d: Decision)
    requires Moves(cel, ttl, compiles, w0, LookUp(id, replica, r), w1) && Key(r) !in CacheOf(w0, replica)
    requires Resolved(cel, ttl, w1, w2, id, replica, r, d)
    ensures w1.flights[id] == Missed(replica, r)
    ensures CheckStep(cel, ttl, NodeOf(w0, replica), r, w0.time.now, NodeOf(w2, replica), Returned(d, false))
    ensures w2.flights == w0.flights && |w2.answers| == |w0.answers| + 1 && w2.answers[|w0.answers|].decision == d
  {
    assert w2.flights == w0.flights;
    DecisionIsCheck(cel, ttl, NodeOf(w0, replica), r, w0.time.now, NodeOf(w2, replica), d);
  }

  /** An expired entry was found, tested and evicted; the check goes on as a miss. */
  ghost predicate Evicted(w: World, w2: World, id: nat, replica: nat, r: Request) {
    && Shaped(w) && Shaped(w2) && w2.time == w.time && w2.answers == w.answers
    && ValidRequest(r) && id !in w.flights && w2.flights == w.flights[id := Missed(replica, r)]
    && Key(r) in CacheOf(w, replica) && w.time.now >= CacheOf(w, replica)[Key(r)].entry.expiresAt
    && NodeOf(w2, replica).cache == NodeOf(w, replica).cache - {Key(r)}
  }

  /** An expired entry was found and tested. */
  ghost predicate FoundExpired(w: World, w2: World, id: nat, replica: nat, r: Request) {
    && Shaped(w) && ValidRequest(r) && id !in w.flights
    && Key(r) in CacheOf(w, replica) && w.time.now >= CacheOf(w, replica)[Key(r)].entry.expiresAt
    && w2 == w.(asked := w.asked + {r}, flights := w.flights[id := Expired(replica, r)])
  }

  lemma FoundAtOnce(cel: Cel, ttl: int, compiles: string -> bool, w0: World, w1: World, w2: World, id: nat,
                    replica: nat, r: Request)
    requires Moves(cel, ttl, compiles, w0, LookUp(id, replica, r), w1) && Key(r) in CacheOf(w0, replica)
    requires w0.time.now >= CacheOf(w0, replica)[Key(r)].entry.expiresAt
    requires Moves(cel, ttl, compiles, w1, TestExpiry(id), w2)
    ensures FoundExpired(w0, w2, id, replica, r)
  {
  }

  lemma EvictedAtOnce(cel: Cel, ttl: int, compiles: string -> bool, w0: World, w2: World, w3: World, id: nat,
                      replica: nat, r: Request)
    requires FoundExpired(w0, w2, id, replica, r) && Moves(cel, ttl, compiles, w2, Evict(id), w3)
    ensures Evicted(w0, w3, id, replica, r)
  {
    assert NodeOf(w3, replica).cache == NodeOf(w0, replica).cache - {Key(r)};
  }

  /** An expired entry, undisturbed: it is replaced by the fresh decision. */
  lemma ExpiredAtOnce(cel: Cel, ttl: int, w0: World, w3: World, w6: World, id: nat, replica: nat, r: Request,
                      d: Decision)
    requires Evicted(w0, w3, id, replica, r) && Resolved(cel, ttl, w3, w6, id, replica, r, d)
    ensures CheckStep(cel, ttl, NodeOf(w0, replica), r, w0.time.now, NodeOf(w6, replica), Returned(d, false))
    ensures w6.flights == w0.flights && |w6.answers| == |w0.answers| + 1 && w6.answers[|w0.answers|].decision == d
  {
    assert w6.flights == w0.flights;
    assert NodeOf(w6, replica).cache == NodeOf(w0, replica).cache[Key(r) := Entry(d, w0.time.now + ttl)];
    DecisionIsCheck(cel, ttl, NodeOf(w0, replica), r, w0.time.now, NodeOf(w6, replica), d);
  }

  /** An expired entry whose replacement cannot be evaluated: it is gone and nothing is answered. */
  lemma FailedAtOnce(cel: Cel, ttl: int, compiles: string -> bool, w0: World, w3: World, w4: World, id: nat,
                     replica: nat,
                     r: Request)
    requires Evicted(w0, w3, id, replica, r) && Moves(cel, ttl, compiles, w3, Action.Fail(id), w4)
    requires FreshVerdict(cel, NodeOf(w0, replica).store, r) == EvaluationError
    ensures Shaped(w4) && w4.answers == w0.answers && w4.flights == w0.flights
    ensures CheckStep(cel, ttl, NodeOf(w0, replica), r, w0.time.now, NodeOf(w4, replica), EvaluationFailed)
  {
    FailureDropsFlight(cel, ttl, compiles, w3, w4, id);
    assert w4.flights == w0.flights && NodeOf(w4, replica) == NodeOf(w3, replica);
    ErrorIsCheck(cel, ttl, NodeOf(w0, replica), r, w0.time.now, NodeOf(w4, replica));
  }

  lemma FailureDropsFlight(cel: Cel, ttl: int, compiles: string -> bool, w: World, w2: World, id: nat)
    requires Moves(cel, ttl, compiles, w, Action.Fail(id), w2)
    ensures w2 == w.(flights := w.flights - {id})
  {
  }

  lemma ErrorIsCheck(cel: Cel, ttl: int, n: Node, r: Request, now: int, n2: Node)
    requires ValidRequest(r) && (Key(r) in n.cache ==> now >= n.cache[Key(r)].expiresAt)
    requires FreshVerdict(cel, n.store, r) == EvaluationError && n2 == Node(n.store, n.cache - {Key(r)})
    ensures CheckStep(cel, ttl, n, r, now, n2, EvaluationFailed)
  {
  }

  lemma DecisionIsCheck(cel: Cel, ttl: int, n: Node, r: Request, now: int, n2: Node, d: Decision)
    requires ValidRequest(r) && (Key(r) in n.cache ==> now >= n.cache[Key(r)].expiresAt)
    requires View(d) == FreshVerdict(cel, n.store, r) && Distinct(d.units)
    requires d.policyVersion == PolicyVersion(n.store, r.tenant)
    requires n2 == Node(n.store, n.cache[Key(r) := Entry(d, now + ttl)])
    ensures CheckStep(cel, ttl, n, r, now, n2, Returned(d, false))
  {
  }

  // ----- A write between the two reads -----

  lemma OneMoreMove(cel: Cel, ttl: int, compiles: string -> bool, worlds: seq<World>, actions: seq<Action>, a: Action,
                    w: World)
    requires Execution(cel, ttl, compiles, worlds, actions) && Moves(cel, ttl, compiles, worlds[|worlds| - 1], a, w)
    ensures Execution(cel, ttl, compiles, worlds + [w], actions + [a])
  {
    forall i | 0 <= i <= |actions| ensures Steps(cel, ttl, compiles, worlds + [w], actions + [a], i) {
      assert i < |actions| ==> Steps(cel, ttl, compiles, worlds, actions, i);
    }
  }

  lemma TwoMoreMoves(cel: Cel, ttl: int, compiles: string -> bool, worlds: seq<World>, actions: seq<Action>,
                     a: Action, w: World, b: Action, x: World)
    requires Execution(cel, ttl, compiles, worlds, actions)
    requires Moves(cel, ttl, compiles, worlds[|worlds| - 1], a, w) && Moves(cel, ttl, compiles, w, b, x)
    ensures Execution(cel, ttl, compiles, worlds + [w, x], actions + [a, b])
  {
    OneMoreMove(cel, ttl, compiles, worlds, actions, a, w);
    OneMoreMove(cel, ttl, compiles, worlds + [w], actions + [a], b, x);
    assert worlds + [w] + [x] == worlds + [w, x] && actions + [a] + [b] == actions + [a, b];
  }

  function CommittedWorld(w: World, step: Step): World
    requires Shaped(w)
  {
    w.(time := Timeline(Grown(w.time.history, step), w.time.since + [w.time.now], w.time.now))
  }

  function VersionedFlight(w: World, id: nat): Flight
    requires Shaped(w) && id in w.flights && w.flights[id].Resolving?
  {
    var f := w.flights[id];
    Versioned(f.replica, f.request, f.read, f.grants, LatestIndex(w.time),
              PolicyVersion(w.time.history.stores[LatestIndex(w.time)], f.request.tenant))
  }

  /** The world after the version is read and the decision stored. */
  ghost function FinishedWorld(w: World, id: nat, ttl: int, d: Decision): World
    requires Shaped(w) && id in w.flights && w.flights[id].Resolving?
  {
    var f := VersionedFlight(w, id);
    Stored(w.(flights := w.flights[id := f]), id, f.replica, f.request, EntryOf(f, w.time.now, ttl, d))
  }

  /** `d` is the decision on the grants that check `id` has read, under the current version. */
  ghost predicate Decides(cel: Cel, w: World, id: nat, d: Decision)
    requires Shaped(w) && id in w.flights && w.flights[id].Resolving?
  {
    && View(d) == Judge(cel, w.flights[id].request, w.flights[id].grants) && Distinct(d.units)
    && d.policyVersion == PolicyVersion(w.time.history.stores[LatestIndex(w.time)], w.flights[id].request.tenant)
  }

  lemma FinishMoves(cel: Cel, ttl: int, compiles: string -> bool, w: World, id: nat, d: Decision)
    requires Shaped(w) && id in w.flights && w.flights[id].Resolving? && Decides(cel, w, id, d)
    ensures
      var versioned := w.(flights := w.flights[id := VersionedFlight(w, id)]);
      && Moves(cel, ttl, compiles, w, ReadVersion(id), versioned)
      && Moves(cel, ttl, compiles, versioned, StoreAndReturn(id, d), FinishedWorld(w, id, ttl, d))
  {
  }

  /** While a check is between its two reads, in any execution, let any write commit. The check
      then stores the decision of the store it read first under the version after the write. */
  lemma CurrentTagOnOldDecision(cel: Cel, ttl: int, compiles: string -> bool, worlds: seq<World>, actions: seq<Action>,
                                id: nat, step: Step, d: Decision)
    returns (worlds2: seq<World>, actions2: seq<Action>)
    requires Execution(cel, ttl, compiles, worlds, actions) && ttl > 0
    requires
      var w := worlds[|worlds| - 1];
      && Shaped(w) && id in w.flights && w.flights[id].Resolving?
      && ValidStep(Grown(w.time.history, step), |w.time.history.steps|, compiles)
      && Decides(cel, CommittedWorld(w, step), id, d)
    ensures Execution(cel, ttl, compiles, worlds2, actions2) && worlds <= worlds2
    ensures
      var w, last := worlds[|worlds| - 1], worlds2[|worlds2| - 1];
      var f, stores := w.flights[id], Grown(w.time.history, step).stores;
      && last.time.history.stores == stores && Key(f.request) in CacheOf(last, f.replica)
      && f.read.index < |stores|
      && var e := CacheOf(last, f.replica)[Key(f.request)];
      && e.source.request == f.request && e.source.read == f.read && e.entry.decision == d
      && View(d) == FreshVerdict(cel, stores[f.read.index], f.request)
      && d.policyVersion == PolicyVersion(stores[|stores| - 1], f.request.tenant)
  {
    var w := worlds[|worlds| - 1];
    var committed := CommittedWorld(w, step);
    var versioned := committed.(flights := committed.flights[id := VersionedFlight(committed, id)]);
    assert Moves(cel, ttl, compiles, w, Commit(step), committed);
    OneMoreMove(cel, ttl, compiles, worlds, actions, Commit(step), committed);
    FinishMoves(cel, ttl, compiles, committed, id, d);
    worlds2 := worlds + [committed] + [versioned, FinishedWorld(committed, id, ttl, d)];
    actions2 := actions + [Commit(step)] + [ReadVersion(id), StoreAndReturn(id, d)];
    TwoMoreMoves(cel, ttl, compiles, worlds + [committed], actions + [Commit(step)], ReadVersion(id), versioned,
                 StoreAndReturn(id, d), FinishedWorld(committed, id, ttl, d));
    ResolvingIsOk(cel, ttl, compiles, worlds, actions, id);
  }

  lemma ResolvingIsOk(cel: Cel, ttl: int, compiles: string -> bool, worlds: seq<World>, actions: seq<Action>, id: nat)
    requires Execution(cel, ttl, compiles, worlds, actions) && ttl > 0
    requires id in worlds[|worlds| - 1].flights && worlds[|worlds| - 1].flights[id].Resolving?
    ensures
      var w := worlds[|worlds| - 1];
      var f := w.flights[id];
      f.read.index < |w.time.history.stores| && f.grants == Grants(w.time.history.stores[f.read.index], f.request)
  {
    var w := worlds[|worlds| - 1];
    ExecutionsAreOk(cel, ttl, compiles, worlds, actions, |worlds| - 1);
    assert FlightOk(cel, ttl, w.time, w.asked, w.flights[id]);
  }

  function FirstWorld(s: Store): World {
    World(Timeline(History([s], []), [0], 0), map[], map[], [], {})
  }

  function ReadingWorld(s: Store, r: Request): World {
    FirstWorld(s).(flights := map[0 := Resolving(0, r, Reading(0, 0), Grants(s, r))], asked := {r})
  }

  /** A check of `r` on a fresh database, up to its first read. */
  lemma FirstRead(cel: Cel, ttl: int, compiles: string -> bool, s: Store, r: Request)
    returns (worlds: seq<World>, actions: seq<Action>)
    requires Untouched(s) && ValidRequest(r)
    ensures Execution(cel, ttl, compiles, worlds, actions) && worlds[|worlds| - 1] == ReadingWorld(s, r)
  {
    var w := FirstWorld(s);
    var missed := w.(flights := map[0 := Missed(0, r)], asked := {r});
    assert Started(w, 0, 0, r) == missed;
    assert Moves(cel, ttl, compiles, w, LookUp(0, 0, r), missed);
    assert Moves(cel, ttl, compiles, missed, ReadGrants(0), ReadingWorld(s, r));
    worlds, actions := [w] + [missed, ReadingWorld(s, r)], [] + [LookUp(0, 0, r), ReadGrants(0)];
    assert Execution(cel, ttl, compiles, [w], []);
    TwoMoreMoves(cel, ttl, compiles, [w], [], LookUp(0, 0, r), missed, ReadGrants(0), ReadingWorld(s, r));
  }

  /** The cache of replica 0 holds decision `d` for `r`. */
  ghost predicate StillHeld(w: World, r: Request, d: Decision) {
    Key(r) in CacheOf(w, 0) && CacheOf(w, 0)[Key(r)].entry.decision == d
  }

  lemma LateDenial(cel: Cel, ttl: int, compiles: string -> bool, s: Store, w: Write, r: Request, d: Decision)
    returns (worlds: seq<World>, actions: seq<Action>)
    requires Untouched(s) && ValidRequest(r) && ttl > 0 && w.SuperAdmin? && Effective(s, w) && Grants(s, r) == {}
    requires View(d) == Verdict(false, NoGrant, NoScope, {}) && d.units == []
             && d.policyVersion == PolicyVersion(Apply(s, w), r.tenant)
    ensures Execution(cel, ttl, compiles, worlds, actions) && StillHeld(worlds[|worlds| - 1], r, d)
    ensures worlds[|worlds| - 1].time.history.stores == [s, Apply(s, w)]
  {
    worlds, actions := FirstRead(cel, ttl, compiles, s, r);
    GrantCommits(cel, compiles, s, w, r, d);
    worlds, actions := CurrentTagOnOldDecision(cel, ttl, compiles, worlds, actions, 0, Step(w, None, true), d);
  }

  /** It happens: where no binding exists yet, a super-admin grant between the two reads leaves
      the denial of its subject under the current version. */
  lemma GrantBetweenReads(cel: Cel, ttl: int, compiles: string -> bool, s: Store, role: Id, g: Id, r: Request)
    returns (worlds: seq<World>, actions: seq<Action>)
    requires Untouched(s) && s.bindings == map[] && IsSuperAdminRole(s.roles, role) && Unlimited(s, role, g)
    requires ValidRequest(r) && r.tenant == PLATFORM && r.subjectType == User && ttl > 0
    ensures Execution(cel, ttl, compiles, worlds, actions)
    ensures
      var last, latest := worlds[|worlds| - 1], Apply(s, SuperAdmin(role, r.subject, User));
      && last.time.history.stores == [s, latest]
      && exists d :: StillHeld(last, r, d) && d.policyVersion == PolicyVersion(latest, PLATFORM)
           && View(d) != FreshVerdict(cel, latest, r)
  {
    var w, d := SuperAdmin(role, r.subject, User), Decision(false, 0, NoGrant, 1, NoScope, []);
    GrantOutdatesDenial(cel, s, role, g, r);
    worlds, actions := LateDenial(cel, ttl, compiles, s, w, r, d);
    assert StillHeld(worlds[|worlds| - 1], r, d);
  }

  lemma GrantCommits(cel: Cel, compiles: string -> bool, s: Store, w: Write, r: Request, d: Decision)
    requires w.SuperAdmin? && Effective(s, w) && Grants(s, r) == {} && View(d) == Verdict(false, NoGrant, NoScope, {})
    requires d.units == [] && d.policyVersion == PolicyVersion(Apply(s, w), r.tenant)
    ensures
      var reading, step := ReadingWorld(s, r), Step(w, None, true);
      && ValidStep(Grown(reading.time.history, step), 0, compiles)
      && Decides(cel, CommittedWorld(reading, step), 0, d)
  {
    assert Judge(cel, r, {}) == View(d);
  }

  lemma GrantOutdatesDenial(cel: Cel, s: Store, role: Id, g: Id, r: Request)
    requires Untouched(s) && s.bindings == map[] && IsSuperAdminRole(s.roles, role) && Unlimited(s, role, g)
    requires r.tenant == PLATFORM && r.subjectType == User
    ensures
      var w := SuperAdmin(role, r.subject, User);
      && Effective(s, w) && Grants(s, r) == {} && PolicyVersion(Apply(s, w), PLATFORM) == 1
      && FreshVerdict(cel, Apply(s, w), r) != Verdict(false, NoGrant, NoScope, {})
  {
    var w := SuperAdmin(role, r.subject, User);
    AdminSucceeds(s, w);
    AdminRuns(s, w);
    SuperAdminIsAllowedEverything(cel, s, w, g, r);
  }

  /** The migrated database is such a store. */
  lemma MigratedIsExposed()
    ensures
      var s := Migrated();
      && Untouched(s) && s.bindings == map[] && IsSuperAdminRole(s.roles, Seed(BootRole))
      && Unlimited(s, Seed(BootRole), Seed(BootRolePermission))
  {
    MigratedIsUntouched();
  }
}
