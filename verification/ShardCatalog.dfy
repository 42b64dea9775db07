/** How a list of sharding requests changes the server's catalog of shard keys, when any command may
    fail, may take effect and still report a failure, or may have its failure hidden by the role
    revocation that follows it. */
module ShardCatalog {
  import opened Wrappers
  import opened ShardKeys

  datatype Request = Request(collection: string, fields: seq<ShardKeyField>)

  /** What the server does with the command inside a grant section. */
  datatype Effect = Done | LostReply | NotDone

  /** A run of `RunWithGrants` or `RunWithClusterGrants`: was the grant accepted, what did the body
      do, was the revocation accepted. */
  datatype Section = Section(granted: bool, body: Effect, revoked: bool)

  /** The error a section returns: the deferred revocation overwrites the body's own. */
  predicate Reports(s: Section) {
    s.granted && s.revoked
  }

  predicate TakesEffect(s: Section) {
    s.granted && s.body != NotDone
  }

  /** The outcomes met while one request is processed. `stored` is the form in which the server would
      keep the requested key. */
  datatype Outcomes = Outcomes(create: Section, lookup: bool, documents: Option<nat>, index: Section, command: Section,
                               stored: KeyDoc)

  type Keys = map<string, KeyDoc>

  /** The catalog, and the redistributions left to background goroutines. */
  datatype State = State(keys: Keys, pending: seq<Request>)

  predicate Fits(r: Request, o: Outcomes) {
    Stores(KeyDocOf(r.fields), o.stored)
  }

  ghost predicate AllFit(requests: seq<Request>, outcomes: seq<Outcomes>) {
    |requests| == |outcomes| && forall i :: 0 <= i < |requests| ==> Fits(requests[i], outcomes[i])
  }

  function Install(st: State, r: Request, o: Outcomes): State {
    if TakesEffect(o.command) then st.(keys := st.keys[r.collection := o.stored]) else st
  }

  predicate Exact(keys: Keys, r: Request) {
    r.collection in keys && Wanted(r.fields) <= Meanings(keys[r.collection])
  }

  predicate Refinable(keys: Keys, r: Request) {
    r.collection in keys && Meanings(keys[r.collection]) < Wanted(r.fields)
  }

  /** `ShardNonShardedCollection`. */
  function Shard(st: State, r: Request, o: Outcomes): (State, bool) {
    if HashedFields(r.fields) > 1 || !o.lookup then (st, false)
    else if Exact(st.keys, r) then (st, true)
    else if r.collection in st.keys then
      if !Refinable(st.keys, r) || !Reports(o.index) then (st, false)
      else (Install(st, r, o), Reports(o.command))
    else if o.documents.None? || !Reports(o.index) then (st, false)
    else
      var after := Install(st, r, o);
      if !Reports(o.command) then (after, false)
      else if o.documents.value > 0 then (after.(pending := after.pending + [r]), true)
      else (after, true)
  }

  /** One round of the loop over the requests. */
  function Apply(st: State, r: Request, o: Outcomes): (State, bool) {
    if !Reports(o.create) then (st, false) else Shard(st, r, o)
  }

  /** The loop: it stops at the first round that reports an error. */
  function Rounds(st: State, requests: seq<Request>, outcomes: seq<Outcomes>): (State, bool)
    requires |requests| == |outcomes|
  {
    if requests == [] then (st, true) else
      var n := |requests| - 1;
      var (before, ok) := Rounds(st, requests[..n], outcomes[..n]);
      if !ok then (before, false) else Apply(before, requests[n], outcomes[n])
  }

  /** `EnableShardingAndCreateCollection`. */
  function Run(st: State, enable: Section, requests: seq<Request>, outcomes: seq<Outcomes>): (State, bool)
    requires |requests| == |outcomes|
  {
    if !Reports(enable) then (st, false) else Rounds(st, requests, outcomes)
  }

  // ----- keys only grow

  ghost predicate Extends(older: Keys, newer: Keys) {
    forall c :: c in older ==> c in newer && Meanings(older[c]) <= Meanings(newer[c])
  }

  lemma ExtendsTransitive(a: Keys, b: Keys, c: Keys)
    requires Extends(a, b) && Extends(b, c)
    ensures Extends(a, c)
  {
    forall k | k in a
      ensures k in c && Meanings(a[k]) <= Meanings(c[k])
    {
      assert Meanings(a[k]) <= Meanings(b[k]);
    }
  }

  lemma ApplyExtends(st: State, r: Request, o: Outcomes)
    requires Fits(r, o)
    ensures Extends(st.keys, Apply(st, r, o).0.keys)
  {
    StoredMeaning(r.fields, o.stored);
  }

  /** The rounds up to the `i`-th, as the run had them. */
  function After(st: State, requests: seq<Request>, outcomes: seq<Outcomes>, i: nat): State
    requires i <= |requests| == |outcomes|
  {
    Rounds(st, requests[..i], outcomes[..i]).0
  }

  lemma OneRoundExtends(st: State, requests: seq<Request>, outcomes: seq<Outcomes>, j: nat)
    requires j < |requests| && AllFit(requests, outcomes)
    ensures Extends(After(st, requests, outcomes, j).keys, After(st, requests, outcomes, j + 1).keys)
  {
    assert requests[..j + 1][..j] == requests[..j] && outcomes[..j + 1][..j] == outcomes[..j];
    ApplyExtends(After(st, requests, outcomes, j), requests[j], outcomes[j]);
  }

  /** At any two points of any run, whatever failed, each key present at the first point is a prefix of
      the key at the second. */
  lemma {:induction false} KeysOnlyGrow(st: State, requests: seq<Request>, outcomes: seq<Outcomes>, i: nat, j: nat)
    requires i <= j <= |requests| && AllFit(requests, outcomes)
    ensures Extends(After(st, requests, outcomes, i).keys, After(st, requests, outcomes, j).keys)
  {
    if i < j {
      KeysOnlyGrow(st, requests, outcomes, i, j - 1);
      OneRoundExtends(st, requests, outcomes, j - 1);
      ExtendsTransitive(After(st, requests, outcomes, i).keys, After(st, requests, outcomes, j - 1).keys,
                        After(st, requests, outcomes, j).keys);
    }
  }

  // ----- what success means

  lemma ExactStays(older: Keys, newer: Keys, r: Request)
    requires Exact(older, r) && Extends(older, newer)
    ensures Exact(newer, r)
  {
    assert Meanings(older[r.collection]) <= Meanings(newer[r.collection]);
  }

  /** A round without an error leaves its request satisfied exactly when it was satisfied before or the
      server carried out the shard or refine command. */
  lemma RoundSatisfies(st: State, r: Request, o: Outcomes)
    requires Fits(r, o) && Apply(st, r, o).1
    ensures Exact(Apply(st, r, o).0.keys, r) <==> Exact(st.keys, r) || TakesEffect(o.command)
  {
    StoredMeaning(r.fields, o.stored);
  }

  /** What stops a round: if the collection cannot be created, the request has two hashed fields, the
      catalog cannot be read, documents cannot be counted or the index not be built, an error is reported
      and nothing has changed. Reported success of the last command is the only other condition. */
  lemma RoundStopsIff(st: State, r: Request, o: Outcomes)
    ensures var (now, ok) := Apply(st, r, o);
            var sharded, satisfied := r.collection in st.keys, Exact(st.keys, r);
            var ready := && o.create.granted && o.create.revoked && HashedFields(r.fields) <= 1 && o.lookup
                         && (sharded && !satisfied ==> Refinable(st.keys, r))
                         && (!sharded ==> o.documents.Some?)
                         && (!satisfied ==> o.index.granted && o.index.revoked);
            && (!ready ==> !ok && now == st)
            && (satisfied ==> now == st)
            && (ok <==> ready && (!satisfied ==> o.command.granted && o.command.revoked))
  {
  }

  /** The error that is not reported: the shard command fails, its revocation succeeds, and the run
      returns success although the collection is not sharded. */
  lemma FailureCanBeMasked(name: string)
    ensures var r := Request(name, [ShardKeyField("id", true)]);
            var good := Section(true, Done, true);
            var o := Outcomes(good, true, Some(0), good, Section(true, NotDone, true), KeyDocOf(r.fields));
            Fits(r, o) && Run(State(map[], []), good, [r], [o]) == (State(map[], []), true)
  {
    var r := Request(name, [ShardKeyField("id", true)]);
    var good := Section(true, Done, true);
    var o := Outcomes(good, true, Some(0), good, Section(true, NotDone, true), KeyDocOf(r.fields));
    assert [r][..0] == [] && [o][..0] == [];
    assert r.fields[..0] == [] && HashedFields(r.fields) == 1;
    assert Rounds(State(map[], []), [r], [o]) == Apply(State(map[], []), r, o);
  }

  /** If every shard and refine command is carried out and the run reports no error, every request of
      the list, repeated collections included, is a prefix of the final key. */
  lemma {:induction false} SuccessSatisfiesAll(st: State, requests: seq<Request>, outcomes: seq<Outcomes>, i: nat)
    requires AllFit(requests, outcomes) && Rounds(st, requests, outcomes).1 && i < |requests|
    requires forall k :: 0 <= k < |outcomes| ==> TakesEffect(outcomes[k].command)
    ensures Exact(Rounds(st, requests, outcomes).0.keys, requests[i])
  {
    var n := |requests| - 1;
    var before := Rounds(st, requests[..n], outcomes[..n]).0;
    if i == n {
      RoundSatisfies(before, requests[n], outcomes[n]);
    } else {
      SuccessSatisfiesAll(st, requests[..n], outcomes[..n], i);
      ApplyExtends(before, requests[n], outcomes[n]);
      ExactStays(before.keys, Rounds(st, requests, outcomes).0.keys, requests[i]);
    }
  }

  ghost predicate CarriedOut(r: Request, requests: seq<Request>, outcomes: seq<Outcomes>, j: nat)
    requires |requests| == |outcomes|
  {
    j < |requests| && requests[j].collection == r.collection && r.fields <= requests[j].fields && TakesEffect(outcomes[j].command)
  }

  /** After a run without a reported error a request is satisfied exactly when it was before, or some
      request of the list that covers it had its command carried out. */
  lemma {:induction false} SatisfiedIff(st: State, requests: seq<Request>, outcomes: seq<Outcomes>, r: Request)
    requires AllFit(requests, outcomes) && Rounds(st, requests, outcomes).1
    ensures Exact(Rounds(st, requests, outcomes).0.keys, r) <==>
            Exact(st.keys, r) || exists j: nat :: CarriedOut(r, requests, outcomes, j)
  {
    if requests != [] {
      var n := |requests| - 1;
      SatisfiedIff(st, requests[..n], outcomes[..n], r);
      RoundSatisfiesOthers(Rounds(st, requests[..n], outcomes[..n]).0, requests[n], outcomes[n], r);
      forall j: nat | j < n
        ensures CarriedOut(r, requests[..n], outcomes[..n], j) <==> CarriedOut(r, requests, outcomes, j)
      {
      }
      if CarriedOut(r, requests, outcomes, n) {
        assert r.collection == requests[n].collection && r.fields <= requests[n].fields;
      }
      if j: nat :| CarriedOut(r, requests[..n], outcomes[..n], j) {
        assert CarriedOut(r, requests, outcomes, j);
      }
    }
  }

  /** What one round without an error does to any request, its own or another one. */
  lemma RoundSatisfiesOthers(st: State, own: Request, o: Outcomes, r: Request)
    requires Fits(own, o) && Apply(st, own, o).1
    ensures Exact(Apply(st, own, o).0.keys, r) <==>
            Exact(st.keys, r) || (own.collection == r.collection && r.fields <= own.fields && TakesEffect(o.command))
  {
    RoundSatisfies(st, own, o);
    StoredMeaning(own.fields, o.stored);
    WantedInjective(r.fields, own.fields);
    ApplyExtends(st, own, o);
    var after := Apply(st, own, o).0.keys;
    if Exact(st.keys, r) {
      ExactStays(st.keys, after, r);
    }
    if own.collection == r.collection && r.fields <= own.fields && TakesEffect(o.command) {
      assert Wanted(r.fields) <= Wanted(own.fields) <= Meanings(after[r.collection]);
    }
  }

  /** Sending satisfied requests again changes neither keys nor background work, whatever commands
      fail. */
  lemma {:induction false} SatisfiedRunIsNoOp(st: State, requests: seq<Request>, outcomes: seq<Outcomes>)
    requires |requests| == |outcomes|
    requires forall i :: 0 <= i < |requests| ==> Exact(st.keys, requests[i])
    ensures Rounds(st, requests, outcomes).0 == st
  {
    if requests != [] {
      var n := |requests| - 1;
      SatisfiedRunIsNoOp(st, requests[..n], outcomes[..n]);
    }
  }

  /** The same list twice: the second run keeps the catalog of a first run that succeeded with all its
      commands carried out. */
  lemma SecondRunIsNoOp(st: State, requests: seq<Request>, first: seq<Outcomes>, enable: Section, second: seq<Outcomes>)
    requires AllFit(requests, first) && |second| == |requests| && Rounds(st, requests, first).1
    requires forall k :: 0 <= k < |first| ==> TakesEffect(first[k].command)
    ensures Run(Rounds(st, requests, first).0, enable, requests, second).0 == Rounds(st, requests, first).0
  {
    forall i: nat | i < |requests|
      ensures Exact(Rounds(st, requests, first).0.keys, requests[i])
    {
      SuccessSatisfiesAll(st, requests, first, i);
    }
    SatisfiedRunIsNoOp(Rounds(st, requests, first).0, requests, second);
  }

  predicate AllGood(o: Outcomes) {
    Reports(o.create) && o.lookup && o.documents.Some? && Reports(o.index) && Reports(o.command) && TakesEffect(o.command)
  }

  /** The documented table for a sharded collection when nothing fails: a request is accepted exactly
      when it has at most one hashed field and one of the two keys is a prefix of the other, and then
      the key becomes the longer of the two. */
  lemma ShardedCollectionTable(st: State, r: Request, o: Outcomes)
    requires Fits(r, o) && AllGood(o) && r.collection in st.keys
    ensures var (current, asked, result) := (Meanings(st.keys[r.collection]), Wanted(r.fields), Apply(st, r, o));
            && (result.1 <==> HashedFields(r.fields) <= 1 && (asked <= current || current <= asked))
            && (result.1 ==> Meanings(result.0.keys[r.collection]) == if asked <= current then current else asked)
            && (!result.1 ==> result.0 == st)
  {
    StoredMeaning(r.fields, o.stored);
  }

  // ----- when a run gets through

  /** Of two keys one is a prefix of the other. */
  predicate Comparable<T(==)>(a: seq<T>, b: seq<T>) {
    a <= b || b <= a
  }

  /** No request has two hashed fields, and the keys asked for one collection, and the one it had before,
      are prefixes of each other. */
  ghost predicate Consistent(keys: Keys, requests: seq<Request>) {
    && (forall i :: 0 <= i < |requests| ==> HashedFields(requests[i].fields) <= 1)
    && (forall i :: 0 <= i < |requests| && requests[i].collection in keys ==>
          Comparable(Wanted(requests[i].fields), Meanings(keys[requests[i].collection])))
    && (forall i, j :: 0 <= i < j < |requests| && requests[i].collection == requests[j].collection ==>
          Comparable(requests[i].fields, requests[j].fields))
  }

  /** A key in the catalog after some rounds is the one there was or that of a request. */
  lemma {:induction false} KeyIsOldOrAsked(st: State, requests: seq<Request>, outcomes: seq<Outcomes>, c: string)
    requires AllFit(requests, outcomes) && c in Rounds(st, requests, outcomes).0.keys
    ensures var now := Rounds(st, requests, outcomes).0.keys;
            || (c in st.keys && now[c] == st.keys[c])
            || exists k :: 0 <= k < |requests| && requests[k].collection == c && Meanings(now[c]) == Wanted(requests[k].fields)
  {
    if requests != [] {
      var n := |requests| - 1;
      var before, now := Rounds(st, requests[..n], outcomes[..n]).0.keys, Rounds(st, requests, outcomes).0.keys;
      StoredMeaning(requests[n].fields, outcomes[n].stored);
      if c in before && now[c] == before[c] {
        KeyIsOldOrAsked(st, requests[..n], outcomes[..n], c);
        if k :| 0 <= k < n && requests[..n][k].collection == c && Meanings(before[c]) == Wanted(requests[..n][k].fields) {
          assert requests[k].collection == c;
        }
      } else {
        assert requests[n].collection == c && now[c] == outcomes[n].stored;
      }
    }
  }

  lemma ConsistentPrefix(keys: Keys, requests: seq<Request>, n: nat)
    requires Consistent(keys, requests) && n <= |requests|
    ensures Consistent(keys, requests[..n])
  {
    var some := requests[..n];
    assert forall i :: 0 <= i < n ==> some[i] == requests[i];
  }

  /** Completeness: if nothing fails, a consistent list gets through. */
  lemma {:induction false} ConsistentGetsThrough(st: State, requests: seq<Request>, outcomes: seq<Outcomes>)
    requires AllFit(requests, outcomes) && Consistent(st.keys, requests)
    requires forall k :: 0 <= k < |outcomes| ==> AllGood(outcomes[k])
    ensures Rounds(st, requests, outcomes).1
  {
    if requests != [] {
      var n := |requests| - 1;
      var before, c := Rounds(st, requests[..n], outcomes[..n]).0, requests[n].collection;
      ConsistentPrefix(st.keys, requests, n);
      ConsistentGetsThrough(st, requests[..n], outcomes[..n]);
      if c in before.keys {
        KeyIsOldOrAsked(st, requests[..n], outcomes[..n], c);
        if k :| 0 <= k < n && requests[..n][k].collection == c && Meanings(before.keys[c]) == Wanted(requests[..n][k].fields) {
          assert Comparable(requests[k].fields, requests[n].fields);
          WantedInjective(requests[k].fields, requests[n].fields);
          WantedInjective(requests[n].fields, requests[k].fields);
        }
        ShardedCollectionTable(before, requests[n], outcomes[n]);
      }
    }
  }

  lemma PrefixesComparable<T>(a: seq<T>, b: seq<T>, whole: seq<T>)
    requires a <= whole && b <= whole
    ensures a <= b || b <= a
  {
    if |a| <= |b| {
      assert a == b[..|a|];
    } else {
      assert b == a[..|b|];
    }
  }

  lemma {:induction false} ThroughMeansFewHashed(st: State, requests: seq<Request>, outcomes: seq<Outcomes>, i: nat)
    requires |requests| == |outcomes| && Rounds(st, requests, outcomes).1 && i < |requests|
    ensures HashedFields(requests[i].fields) <= 1
  {
    var n := |requests| - 1;
    if i < n {
      ThroughMeansFewHashed(st, requests[..n], outcomes[..n], i);
    }
  }

  /** If nothing fails, a list gets through exactly when it is consistent. */
  lemma GetsThroughIff(st: State, requests: seq<Request>, outcomes: seq<Outcomes>)
    requires AllFit(requests, outcomes) && forall k :: 0 <= k < |outcomes| ==> AllGood(outcomes[k])
    ensures Rounds(st, requests, outcomes).1 <==> Consistent(st.keys, requests)
  {
    if Consistent(st.keys, requests) {
      ConsistentGetsThrough(st, requests, outcomes);
    } else if Rounds(st, requests, outcomes).1 {
      ThroughIsConsistent(st, requests, outcomes);
    }
  }

  lemma ThroughIsConsistent(st: State, requests: seq<Request>, outcomes: seq<Outcomes>)
    requires AllFit(requests, outcomes) && Rounds(st, requests, outcomes).1
    requires forall k :: 0 <= k < |outcomes| ==> AllGood(outcomes[k])
    ensures Consistent(st.keys, requests)
  {
    var now := Rounds(st, requests, outcomes).0.keys;
    RoundsExtend(st, requests, outcomes);
    forall i: nat | i < |requests|
      ensures HashedFields(requests[i].fields) <= 1 && Exact(now, requests[i])
    {
      ThroughMeansFewHashed(st, requests, outcomes, i);
      SuccessSatisfiesAll(st, requests, outcomes, i);
    }
    forall i | 0 <= i < |requests| && requests[i].collection in st.keys
      ensures Comparable(Wanted(requests[i].fields), Meanings(st.keys[requests[i].collection]))
    {
      assert Exact(now, requests[i]);
      PrefixesComparable(Wanted(requests[i].fields), Meanings(st.keys[requests[i].collection]), Meanings(now[requests[i].collection]));
    }
    forall i, j | 0 <= i < j < |requests| && requests[i].collection == requests[j].collection
      ensures Comparable(requests[i].fields, requests[j].fields)
    {
      assert Exact(now, requests[i]) && Exact(now, requests[j]);
      PrefixesComparable(Wanted(requests[i].fields), Wanted(requests[j].fields), Meanings(now[requests[i].collection]));
      WantedInjective(requests[i].fields, requests[j].fields);
      WantedInjective(requests[j].fields, requests[i].fields);
    }
  }

  // ----- background redistribution

  /** The goroutine's `reshardCollection`, when the server carries it out: it asks for the key of the
      request that started it. */
  function Redistributed(keys: Keys, r: Request, stored: KeyDoc): Keys {
    if r.collection in keys then keys[r.collection := stored] else keys
  }

  /** It keeps the growth of keys exactly when the key has not been refined since. */
  lemma RedistributionKeepsKeys(keys: Keys, r: Request, stored: KeyDoc)
    requires Exact(keys, r) && Stores(KeyDocOf(r.fields), stored)
    ensures Extends(keys, Redistributed(keys, r, stored)) <==> Meanings(keys[r.collection]) == Wanted(r.fields)
  {
    StoredMeaning(r.fields, stored);
    var after := Redistributed(keys, r, stored);
    if Extends(keys, after) {
      assert Meanings(keys[r.collection]) <= Meanings(after[r.collection]);
    }
  }

  ghost predicate PendingUpToDate(st: State) {
    forall k :: 0 <= k < |st.pending| && st.pending[k].collection in st.keys ==>
      Meanings(st.keys[st.pending[k].collection]) == Wanted(st.pending[k].fields)
  }

  ghost predicate NamedOnce(requests: seq<Request>) {
    forall i, j :: 0 <= i < j < |requests| ==> requests[i].collection != requests[j].collection
  }

  /** A list that names no collection twice leaves only redistributions to the key in force. */
  lemma {:induction false} PendingStaysUpToDate(keys: Keys, requests: seq<Request>, outcomes: seq<Outcomes>)
    requires AllFit(requests, outcomes) && NamedOnce(requests)
    ensures var st := Rounds(State(keys, []), requests, outcomes).0;
            && PendingUpToDate(st)
            && forall p :: p in st.pending ==> p in requests
  {
    if requests != [] {
      var n := |requests| - 1;
      PendingStaysUpToDate(keys, requests[..n], outcomes[..n]);
      StoredMeaning(requests[n].fields, outcomes[n].stored);
      var (before, ok) := Rounds(State(keys, []), requests[..n], outcomes[..n]);
      forall k | 0 <= k < |before.pending|
        ensures before.pending[k].collection != requests[n].collection
      {
        assert before.pending[k] in requests[..n];
      }
    }
  }

  /** Request `i` is the first for a collection that was not sharded and holds documents. */
  predicate Starts(keys: Keys, requests: seq<Request>, outcomes: seq<Outcomes>, i: nat)
    requires |requests| == |outcomes|
  {
    && i < |requests| && requests[i].collection !in keys
    && outcomes[i].documents.Some? && outcomes[i].documents.value > 0
    && forall j :: 0 <= j < i ==> requests[j].collection != requests[i].collection
  }

  /** No later request for the collection of request `i` asks for a longer key. */
  predicate NeverLonger(requests: seq<Request>, i: nat)
    requires i < |requests|
  {
    forall j :: i < j < |requests| && requests[j].collection == requests[i].collection ==>
      requests[j].fields <= requests[i].fields
  }

  ghost predicate AllGoodRun(keys: Keys, requests: seq<Request>, outcomes: seq<Outcomes>) {
    && AllFit(requests, outcomes) && (forall k :: 0 <= k < |outcomes| ==> AllGood(outcomes[k]))
    && Rounds(State(keys, []), requests, outcomes).1
  }

  /** Redistributions and the list that asked for them: after a run in which nothing failed, every
      redistribution left to the background asks for the key in force exactly when no request that
      started one is followed by a longer key for its collection. */
  lemma RedistributionsUpToDateIff(keys: Keys, requests: seq<Request>, outcomes: seq<Outcomes>)
    requires AllGoodRun(keys, requests, outcomes)
    ensures PendingUpToDate(Rounds(State(keys, []), requests, outcomes).0) <==>
            forall i: nat :: Starts(keys, requests, outcomes, i) ==> NeverLonger(requests, i)
  {
    var st := Rounds(State(keys, []), requests, outcomes).0;
    forall i: nat | Starts(keys, requests, outcomes, i)
      ensures requests[i] in st.pending && requests[i].collection in st.keys
      ensures Meanings(st.keys[requests[i].collection]) == Wanted(requests[i].fields) <==> NeverLonger(requests, i)
    {
      PendingAreTheStarts(keys, requests, outcomes, requests[i]);
      InForceIff(keys, requests, outcomes, i);
    }
    forall k | 0 <= k < |st.pending|
      ensures exists i: nat :: Starts(keys, requests, outcomes, i) && st.pending[k] == requests[i]
    {
      PendingAreTheStarts(keys, requests, outcomes, st.pending[k]);
    }
  }

  /** The key of a newly sharded collection is still that of its first request exactly when no later
      request asked for a longer one. */
  lemma InForceIff(keys: Keys, requests: seq<Request>, outcomes: seq<Outcomes>, i: nat)
    requires AllGoodRun(keys, requests, outcomes) && Starts(keys, requests, outcomes, i)
    ensures requests[i].collection in Rounds(State(keys, []), requests, outcomes).0.keys
    ensures Meanings(Rounds(State(keys, []), requests, outcomes).0.keys[requests[i].collection]) == Wanted(requests[i].fields) <==>
            NeverLonger(requests, i)
  {
    var now, c := Rounds(State(keys, []), requests, outcomes).0.keys, requests[i].collection;
    forall j: nat | j < |requests|
      ensures Exact(now, requests[j])
    {
      SuccessSatisfiesAll(State(keys, []), requests, outcomes, j);
    }
    NewKeyIsAsked(keys, requests, outcomes, c);
    var k: nat :| k < |requests| && requests[k].collection == c && Meanings(now[c]) == Wanted(requests[k].fields);
    assert k >= i && Wanted(requests[i].fields) <= Wanted(requests[k].fields);
    WantedInjective(requests[i].fields, requests[k].fields);
    WantedInjective(requests[k].fields, requests[i].fields);
    forall j | i < j < |requests| && requests[j].collection == c
      ensures requests[j].fields <= requests[k].fields
    {
      assert Exact(now, requests[j]);
      WantedInjective(requests[j].fields, requests[k].fields);
    }
  }

  /** A collection that a run has sharded has the key of one of its requests. */
  lemma {:induction false} NewKeyIsAsked(keys: Keys, requests: seq<Request>, outcomes: seq<Outcomes>, c: string)
    requires AllFit(requests, outcomes) && c !in keys && c in Rounds(State(keys, []), requests, outcomes).0.keys
    ensures exists k: nat :: k < |requests| && requests[k].collection == c &&
              Meanings(Rounds(State(keys, []), requests, outcomes).0.keys[c]) == Wanted(requests[k].fields)
  {
    if requests != [] {
      var n := |requests| - 1;
      var before := Rounds(State(keys, []), requests[..n], outcomes[..n]).0.keys;
      var now := Rounds(State(keys, []), requests, outcomes).0.keys;
      StoredMeaning(requests[n].fields, outcomes[n].stored);
      if c in before && now[c] == before[c] {
        NewKeyIsAsked(keys, requests[..n], outcomes[..n], c);
        var k: nat :| k < n && requests[..n][k].collection == c && Meanings(before[c]) == Wanted(requests[..n][k].fields);
        assert requests[k].collection == c && Meanings(now[c]) == Wanted(requests[k].fields);
      } else {
        assert requests[n].collection == c && now[c] == outcomes[n].stored;
      }
    }
  }

  lemma {:induction false} PendingAreTheStarts(keys: Keys, requests: seq<Request>, outcomes: seq<Outcomes>, p: Request)
    requires AllGoodRun(keys, requests, outcomes)
    ensures p in Rounds(State(keys, []), requests, outcomes).0.pending <==>
            exists i: nat :: Starts(keys, requests, outcomes, i) && requests[i] == p
  {
    if requests != [] {
      var n := |requests| - 1;
      var before := Rounds(State(keys, []), requests[..n], outcomes[..n]).0;
      PendingAreTheStarts(keys, requests[..n], outcomes[..n], p);
      forall i: nat | i < n {
        StartsEarlier(keys, requests, outcomes, i);
      }
      LastStartsIff(keys, requests, outcomes);
      PendingGrows(before, requests[n], outcomes[n]);
      if i: nat :| Starts(keys, requests[..n], outcomes[..n], i) && requests[..n][i] == p {
        assert Starts(keys, requests, outcomes, i) && requests[i] == p;
      }
    }
  }

  lemma StartsEarlier(keys: Keys, requests: seq<Request>, outcomes: seq<Outcomes>, i: nat)
    requires |requests| == |outcomes| && i + 1 < |requests|
    ensures Starts(keys, requests[..|requests| - 1], outcomes[..|requests| - 1], i) <==> Starts(keys, requests, outcomes, i)
  {
    assert forall j :: 0 <= j <= i ==> requests[..|requests| - 1][j] == requests[j];
  }

  lemma LastStartsIff(keys: Keys, requests: seq<Request>, outcomes: seq<Outcomes>)
    requires AllGoodRun(keys, requests, outcomes) && requests != []
    ensures var n := |requests| - 1;
            Starts(keys, requests, outcomes, n) <==>
            requests[n].collection !in Rounds(State(keys, []), requests[..n], outcomes[..n]).0.keys && outcomes[n].documents.value > 0
  {
    var n := |requests| - 1;
    NewlySharded(keys, requests[..n], outcomes[..n], requests[n].collection);
    assert forall j :: 0 <= j < n ==> requests[..n][j] == requests[j];
  }

  lemma PendingGrows(st: State, r: Request, o: Outcomes)
    requires AllGood(o) && Apply(st, r, o).1
    ensures Apply(st, r, o).0.pending ==
            if r.collection !in st.keys && o.documents.value > 0 then st.pending + [r] else st.pending
  {
  }

  /** A collection is in the catalog after such a run exactly when it was before or was asked for. */
  lemma NewlySharded(keys: Keys, requests: seq<Request>, outcomes: seq<Outcomes>, c: string)
    requires AllGoodRun(keys, requests, outcomes)
    ensures c in Rounds(State(keys, []), requests, outcomes).0.keys <==>
            c in keys || exists j :: 0 <= j < |requests| && requests[j].collection == c
  {
    var now := Rounds(State(keys, []), requests, outcomes).0.keys;
    if c in keys {
      RoundsExtend(State(keys, []), requests, outcomes);
    } else if c in now {
      NewKeyIsAsked(keys, requests, outcomes, c);
    } else if j: nat :| j < |requests| && requests[j].collection == c {
      SuccessSatisfiesAll(State(keys, []), requests, outcomes, j);
    }
  }

  lemma RoundsExtend(st: State, requests: seq<Request>, outcomes: seq<Outcomes>)
    requires AllFit(requests, outcomes)
    ensures Extends(st.keys, Rounds(st, requests, outcomes).0.keys)
  {
    KeysOnlyGrow(st, requests, outcomes, 0, |requests|);
    assert requests[..|requests|] == requests && outcomes[..|requests|] == outcomes;
    assert requests[..0] == [] && outcomes[..0] == [];
  }

  // ----- redistributions that take effect during the run

  /** The request loop goes on, or the goroutine of the `index`-th redistribution has its effect. */
  datatype Act = Next | Redistribute(index: nat, stored: KeyDoc)

  /** A run of the loop and of the goroutines it starts: the state, the requests processed, and whether
      the loop still runs without an error. */
  datatype Progress = Progress(state: State, done: nat, ok: bool)

  function Play(keys: Keys, requests: seq<Request>, outcomes: seq<Outcomes>, acts: seq<Act>): (p: Progress)
    requires |requests| == |outcomes|
  {
    if acts == [] then Progress(State(keys, []), 0, true) else
      Took(Play(keys, requests, outcomes, acts[..|acts| - 1]), requests, outcomes, acts[|acts| - 1])
  }

  function Took(p: Progress, requests: seq<Request>, outcomes: seq<Outcomes>, act: Act): Progress
    requires |requests| == |outcomes|
  {
    match act
    case Next =>
      if p.done >= |requests| then p else
        var (st, ok) := Apply(p.state, requests[p.done], outcomes[p.done]);
        Progress(st, p.done + 1, ok)
    case Redistribute(n, stored) =>
      if n >= |p.state.pending| then p else
        p.(state := p.state.(keys := Redistributed(p.state.keys, p.state.pending[n], stored)))
  }

  /** The loop goes on while there is no error, and each redistribution that was started has its effect
      at most once. */
  predicate Possible(keys: Keys, requests: seq<Request>, outcomes: seq<Outcomes>, acts: seq<Act>)
    requires |requests| == |outcomes|
  {
    acts == [] ||
    var front, last := acts[..|acts| - 1], acts[|acts| - 1];
    var p := Play(keys, requests, outcomes, front);
    Possible(keys, requests, outcomes, front) &&
    match last
    case Next => p.ok && p.done < |requests|
    case Redistribute(n, stored) =>
      && n < |p.state.pending| && Stores(KeyDocOf(p.state.pending[n].fields), stored)
      && forall a :: a in front && a.Redistribute? ==> a.index != n
  }

  ghost predicate OnlyGrows(keys: Keys, requests: seq<Request>, outcomes: seq<Outcomes>, acts: seq<Act>)
    requires |requests| == |outcomes|
  {
    forall i, j :: 0 <= i <= j <= |acts| ==>
      Extends(Play(keys, requests, outcomes, acts[..i]).state.keys, Play(keys, requests, outcomes, acts[..j]).state.keys)
  }

  /** The state of the loop after `n` requests when no redistribution has its effect. */
  function Undisturbed(keys: Keys, requests: seq<Request>, outcomes: seq<Outcomes>, n: nat): State
    requires n <= |requests| == |outcomes|
  {
    Rounds(State(keys, []), requests[..n], outcomes[..n]).0
  }

  /** Keys that mean the same. */
  ghost predicate SameKeys(a: Keys, b: Keys) {
    a.Keys == b.Keys && forall c :: c in a ==> Meanings(a[c]) == Meanings(b[c])
  }

  lemma PrefixIsGood(keys: Keys, requests: seq<Request>, outcomes: seq<Outcomes>, n: nat)
    requires AllGoodRun(keys, requests, outcomes) && n <= |requests|
    ensures AllGoodRun(keys, requests[..n], outcomes[..n])
  {
    if !Rounds(State(keys, []), requests[..n], outcomes[..n]).1 {
      StoppedRun(State(keys, []), requests, outcomes, n);
    }
  }

  lemma OneMoreRound(keys: Keys, requests: seq<Request>, outcomes: seq<Outcomes>, n: nat)
    requires AllGoodRun(keys, requests, outcomes) && n < |requests|
    ensures Apply(Undisturbed(keys, requests, outcomes, n), requests[n], outcomes[n]) ==
            (Undisturbed(keys, requests, outcomes, n + 1), true)
  {
    PrefixIsGood(keys, requests, outcomes, n);
    PrefixIsGood(keys, requests, outcomes, n + 1);
    assert requests[..n + 1][..n] == requests[..n] && outcomes[..n + 1][..n] == outcomes[..n];
  }

  /** A round only looks at what keys mean. */
  lemma ApplyToSame(a: State, b: State, r: Request, o: Outcomes)
    requires SameKeys(a.keys, b.keys) && a.pending == b.pending
    ensures Apply(a, r, o).1 == Apply(b, r, o).1 && Apply(a, r, o).0.pending == Apply(b, r, o).0.pending
    ensures SameKeys(Apply(a, r, o).0.keys, Apply(b, r, o).0.keys)
  {
  }

  /** Up to a point at which no started request has been outgrown, a redistribution asks for what the
      collection's key means. */
  lemma RedistributionInForce(keys: Keys, requests: seq<Request>, outcomes: seq<Outcomes>, n: nat, k: nat)
    requires AllGoodRun(keys, requests, outcomes) && n <= |requests|
    requires forall i: nat :: Starts(keys, requests, outcomes, i) ==> NeverLonger(requests, i)
    requires k < |Undisturbed(keys, requests, outcomes, n).pending|
    ensures var st := Undisturbed(keys, requests, outcomes, n); var r := st.pending[k];
            r.collection in st.keys && Meanings(st.keys[r.collection]) == Wanted(r.fields)
  {
    var st, some, outs := Undisturbed(keys, requests, outcomes, n), requests[..n], outcomes[..n];
    PrefixIsGood(keys, requests, outcomes, n);
    PendingAreTheStarts(keys, some, outs, st.pending[k]);
    var i: nat :| Starts(keys, some, outs, i) && some[i] == st.pending[k];
    assert Starts(keys, requests, outcomes, i) by {
      assert forall j :: 0 <= j <= i ==> some[j] == requests[j];
    }
    assert NeverLonger(requests, i);
    assert NeverLonger(some, i) by {
      assert forall j :: 0 <= j < n ==> some[j] == requests[j];
    }
    InForceIff(keys, some, outs, i);
  }

  /** If no started request is outgrown, redistributions make no difference to what keys mean. */
  lemma {:induction false} PlayIsUndisturbed(keys: Keys, requests: seq<Request>, outcomes: seq<Outcomes>, acts: seq<Act>)
    requires AllGoodRun(keys, requests, outcomes) && Possible(keys, requests, outcomes, acts)
    requires forall i: nat :: Starts(keys, requests, outcomes, i) ==> NeverLonger(requests, i)
    ensures var p := Play(keys, requests, outcomes, acts);
            && p.done <= |requests| && p.ok
            && SameKeys(p.state.keys, Undisturbed(keys, requests, outcomes, p.done).keys)
            && p.state.pending == Undisturbed(keys, requests, outcomes, p.done).pending
  {
    if acts != [] {
      var front, last := acts[..|acts| - 1], acts[|acts| - 1];
      PlayIsUndisturbed(keys, requests, outcomes, front);
      var p := Play(keys, requests, outcomes, front);
      var st := Undisturbed(keys, requests, outcomes, p.done);
      match last {
        case Next =>
          ApplyToSame(p.state, st, requests[p.done], outcomes[p.done]);
          OneMoreRound(keys, requests, outcomes, p.done);
        case Redistribute(n, stored) =>
          RedistributionInForce(keys, requests, outcomes, p.done, n);
          StoredMeaning(p.state.pending[n].fields, stored);
      }
    }
  }

  lemma SameKeysExtend(a: Keys, b: Keys, c: Keys, d: Keys)
    requires SameKeys(a, b) && Extends(b, c) && SameKeys(d, c)
    ensures Extends(a, d)
  {
    forall k | k in a
      ensures k in d && Meanings(a[k]) <= Meanings(d[k])
    {
      assert Meanings(b[k]) <= Meanings(c[k]);
    }
  }

  lemma {:induction false} DoneGrows(keys: Keys, requests: seq<Request>, outcomes: seq<Outcomes>, acts: seq<Act>, i: nat)
    requires |requests| == |outcomes| && i <= |acts|
    ensures Play(keys, requests, outcomes, acts[..i]).done <= Play(keys, requests, outcomes, acts).done
  {
    if i < |acts| {
      var front := acts[..|acts| - 1];
      DoneGrows(keys, requests, outcomes, front, i);
      assert front[..i] == acts[..i];
    } else {
      assert acts[..i] == acts;
    }
  }

  lemma {:induction false} PossibleBefore(keys: Keys, requests: seq<Request>, outcomes: seq<Outcomes>, acts: seq<Act>, i: nat)
    requires |requests| == |outcomes| && i <= |acts| && Possible(keys, requests, outcomes, acts)
    ensures Possible(keys, requests, outcomes, acts[..i])
  {
    if i < |acts| {
      var front := acts[..|acts| - 1];
      PossibleBefore(keys, requests, outcomes, front, i);
      assert front[..i] == acts[..i];
    } else {
      assert acts[..i] == acts;
    }
  }

  lemma UndisturbedGrows(keys: Keys, requests: seq<Request>, outcomes: seq<Outcomes>, acts: seq<Act>, i: nat, j: nat)
    requires AllGoodRun(keys, requests, outcomes) && Possible(keys, requests, outcomes, acts) && i <= j <= |acts|
    requires forall n: nat :: Starts(keys, requests, outcomes, n) ==> NeverLonger(requests, n)
    ensures Extends(Play(keys, requests, outcomes, acts[..i]).state.keys, Play(keys, requests, outcomes, acts[..j]).state.keys)
  {
    PossibleBefore(keys, requests, outcomes, acts, i);
    PossibleBefore(keys, requests, outcomes, acts, j);
    PlayIsUndisturbed(keys, requests, outcomes, acts[..i]);
    PlayIsUndisturbed(keys, requests, outcomes, acts[..j]);
    DoneGrows(keys, requests, outcomes, acts[..j], i);
    assert acts[..j][..i] == acts[..i];
    var p, q := Play(keys, requests, outcomes, acts[..i]), Play(keys, requests, outcomes, acts[..j]);
    KeysOnlyGrow(State(keys, []), requests, outcomes, p.done, q.done);
    SameKeysExtend(p.state.keys, Undisturbed(keys, requests, outcomes, p.done).keys,
                   Undisturbed(keys, requests, outcomes, q.done).keys, q.state.keys);
  }

  function Nexts(n: nat): seq<Act> {
    seq(n, _ => Next)
  }

  lemma {:induction false} LoopAlone(keys: Keys, requests: seq<Request>, outcomes: seq<Outcomes>, n: nat)
    requires AllGoodRun(keys, requests, outcomes) && n <= |requests|
    ensures Play(keys, requests, outcomes, Nexts(n)) == Progress(Undisturbed(keys, requests, outcomes, n), n, true)
    ensures Possible(keys, requests, outcomes, Nexts(n))
  {
    if n > 0 {
      assert Nexts(n)[..n - 1] == Nexts(n - 1);
      LoopAlone(keys, requests, outcomes, n - 1);
      OneMoreRound(keys, requests, outcomes, n - 1);
    }
  }

  /** The list first, then the redistribution of a request that was outgrown: a key gets shorter. */
  lemma OutgrownShrinks(keys: Keys, requests: seq<Request>, outcomes: seq<Outcomes>, i: nat)
    requires AllGoodRun(keys, requests, outcomes) && Starts(keys, requests, outcomes, i) && !NeverLonger(requests, i)
    ensures exists acts :: Possible(keys, requests, outcomes, acts) && !OnlyGrows(keys, requests, outcomes, acts)
  {
    var n, r := |requests|, requests[i];
    assert requests[..n] == requests && outcomes[..n] == outcomes;
    var st := Undisturbed(keys, requests, outcomes, n);
    PendingAreTheStarts(keys, requests, outcomes, r);
    var k: nat :| k < |st.pending| && st.pending[k] == r;
    InForceIff(keys, requests, outcomes, i);
    SuccessSatisfiesAll(State(keys, []), requests, outcomes, i);
    RedistributionKeepsKeys(st.keys, r, KeyDocOf(r.fields));
    RedistributedLast(keys, requests, outcomes, k);
  }

  lemma RedistributedLast(keys: Keys, requests: seq<Request>, outcomes: seq<Outcomes>, k: nat)
    requires AllGoodRun(keys, requests, outcomes) && k < |Undisturbed(keys, requests, outcomes, |requests|).pending|
    ensures var st := Undisturbed(keys, requests, outcomes, |requests|);
            var stored := KeyDocOf(st.pending[k].fields); var acts := Nexts(|requests|) + [Redistribute(k, stored)];
            && Possible(keys, requests, outcomes, acts)
            && (OnlyGrows(keys, requests, outcomes, acts) ==> Extends(st.keys, Redistributed(st.keys, st.pending[k], stored)))
  {
    var n, st := |requests|, Undisturbed(keys, requests, outcomes, |requests|);
    LoopAlone(keys, requests, outcomes, n);
    var acts := Nexts(n) + [Redistribute(k, KeyDocOf(st.pending[k].fields))];
    assert acts[..|acts| - 1] == acts[..n] == Nexts(n) && acts[..n + 1] == acts;
    if OnlyGrows(keys, requests, outcomes, acts) {
      assert Extends(Play(keys, requests, outcomes, acts[..n]).state.keys, Play(keys, requests, outcomes, acts[..n + 1]).state.keys);
    }
  }

  /** Keys and goroutines: for a list in whose run nothing fails, keys only ever grow, however its
      redistributions interleave with it and whichever of them have an effect, exactly when no request
      that starts one is followed by a longer key for its collection. */
  lemma KeysOnlyGrowIff(keys: Keys, requests: seq<Request>, outcomes: seq<Outcomes>)
    requires AllGoodRun(keys, requests, outcomes)
    ensures (forall acts :: Possible(keys, requests, outcomes, acts) ==> OnlyGrows(keys, requests, outcomes, acts)) <==>
            forall i: nat :: Starts(keys, requests, outcomes, i) ==> NeverLonger(requests, i)
  {
    if forall i: nat :: Starts(keys, requests, outcomes, i) ==> NeverLonger(requests, i) {
      forall acts | Possible(keys, requests, outcomes, acts)
        ensures OnlyGrows(keys, requests, outcomes, acts)
      {
        forall i, j | 0 <= i <= j <= |acts| {
          UndisturbedGrows(keys, requests, outcomes, acts, i, j);
        }
      }
    } else {
      var i: nat :| Starts(keys, requests, outcomes, i) && !NeverLonger(requests, i);
      OutgrownShrinks(keys, requests, outcomes, i);
    }
  }

  lemma TwoRounds(st: State, r1: Request, o1: Outcomes, r2: Request, o2: Outcomes)
    requires Apply(st, r1, o1).1
    ensures Rounds(st, [r1, r2], [o1, o2]) == Apply(Apply(st, r1, o1).0, r2, o2)
  {
    assert [r1, r2][..1] == [r1] && [o1, o2][..1] == [o1] && [r1][..0] == [] && [o1][..0] == [];
    assert Rounds(st, [r1], [o1]) == Apply(st, r1, o1);
  }

  /** The shortest such list: a collection with documents in it is sharded and then refined, and a
      redistribution is left that asks for the shorter key again. */
  lemma RedistributionUndoesRefinement(keys: Keys, narrow: Request, wide: Request, o1: Outcomes, o2: Outcomes, stored: KeyDoc)
    requires narrow.collection == wide.collection && narrow.collection !in keys && narrow.fields < wide.fields
    requires HashedFields(narrow.fields) <= 1 && HashedFields(wide.fields) <= 1
    requires Fits(narrow, o1) && Fits(wide, o2) && Stores(KeyDocOf(narrow.fields), stored)
    requires AllGood(o1) && AllGood(o2) && o1.documents.value > 0
    ensures var (st, ok) := Rounds(State(keys, []), [narrow, wide], [o1, o2]);
            ok && st.pending == [narrow] && !Extends(st.keys, Redistributed(st.keys, narrow, stored))
  {
    var mid := State(keys[narrow.collection := o1.stored], [narrow]);
    assert State(keys, []).pending + [narrow] == [narrow];
    assert Apply(State(keys, []), narrow, o1) == (mid, true);
    StoredMeaning(narrow.fields, o1.stored);
    StoredMeaning(wide.fields, o2.stored);
    WantedInjective(narrow.fields, wide.fields);
    WantedInjective(wide.fields, narrow.fields);
    assert Refinable(mid.keys, wide) && !Exact(mid.keys, wide);
    TwoRounds(State(keys, []), narrow, o1, wide, o2);
    RedistributionKeepsKeys(Apply(mid, wide, o2).0.keys, narrow, stored);
  }

  /** What a whole run comes to, in terms of what was there and what was asked for. */
  lemma RunMeans(st: State, enable: Section, requests: seq<Request>, outcomes: seq<Outcomes>)
    requires |requests| == |outcomes|
    ensures var (now, ok) := Run(st, enable, requests, outcomes);
            && (!(enable.granted && enable.revoked) ==> !ok && now == st)
            && (AllFit(requests, outcomes) ==> Extends(st.keys, now.keys))
            && (ok && AllFit(requests, outcomes) && (forall k :: 0 <= k < |outcomes| ==> TakesEffect(outcomes[k].command)) ==>
                  forall i :: 0 <= i < |requests| ==> Exact(now.keys, requests[i]))
            && (AllFit(requests, outcomes) && (forall k :: 0 <= k < |outcomes| ==> AllGood(outcomes[k])) ==>
                  (ok <==> enable.granted && enable.revoked && Consistent(st.keys, requests)))
  {
    if AllFit(requests, outcomes) && enable.granted && enable.revoked {
      RoundsExtend(st, requests, outcomes);
      if Rounds(st, requests, outcomes).1 && forall k :: 0 <= k < |outcomes| ==> TakesEffect(outcomes[k].command) {
        forall i: nat | i < |requests|
          ensures Exact(Rounds(st, requests, outcomes).0.keys, requests[i])
        {
          SuccessSatisfiesAll(st, requests, outcomes, i);
        }
      }
      if forall k :: 0 <= k < |outcomes| ==> AllGood(outcomes[k]) {
        GetsThroughIff(st, requests, outcomes);
      }
    }
  }

  // ----- the service's code

  class Service {
    var keys: Keys
    var pending: seq<Request>

    constructor (keys: Keys)
      ensures this.keys == keys && pending == []
    {
      this.keys := keys;
      pending := [];
    }

    ghost function Now(): State
      reads this
    {
      State(keys, pending)
    }

    /** `RunWithGrants` and `RunWithClusterGrants`. The body, here by its effect on the keys, runs only
        after an accepted grant; its error is overwritten by the revocation's. */
    method RunWithGrants(s: Section, effect: Keys -> Keys) returns (ok: bool)
      modifies this`keys
      ensures ok == Reports(s) == (s.granted && s.revoked)
      ensures keys == if TakesEffect(s) then effect(old(keys)) else old(keys)
      ensures keys == if s.granted && s.body != NotDone then effect(old(keys)) else old(keys)
    {
      if !s.granted {
        return false;
      }
      var bodyFailed := s.body != Done;
      if s.body != NotDone {
        keys := effect(keys);
      }
      ok := !bodyFailed;
      ok := s.revoked;
    }

    method ShardNonShardedCollection(r: Request, o: Outcomes) returns (ok: bool)
      modifies this
      ensures (Now(), ok) == Shard(old(Now()), r, o)
    {
      var hashed := HashedFieldCount(r.fields);
      if hashed > 1 || !o.lookup {
        return false;
      }
      if r.collection in keys {
        var exact, needsRefine := ShardKeyMatches(keys[r.collection], r.fields);
        if exact {
          return true;
        } else if needsRefine {
          ok := RunWithGrants(o.index, ks => ks);
          if ok {
            ok := RunWithGrants(o.command, ks => ks[r.collection := o.stored]);
          }
          return;
        }
        return false;
      }
      if o.documents.None? {
        return false;
      }
      ok := RunWithGrants(o.index, ks => ks);
      if !ok {
        return;
      }
      ok := RunWithGrants(o.command, ks => ks[r.collection := o.stored]);
      if ok && o.documents.value > 0 {
        pending := pending + [r];
      }
    }

    method EnableShardingAndCreateCollection(enable: Section, requests: seq<Request>, outcomes: seq<Outcomes>)
      returns (ok: bool)
      requires |requests| == |outcomes|
      modifies this
      ensures (Now(), ok) == Run(old(Now()), enable, requests, outcomes)
      ensures !(enable.granted && enable.revoked) ==> !ok && keys == old(keys) && pending == old(pending)
      ensures AllFit(requests, outcomes) ==>
                forall c :: c in old(keys) ==> c in keys && Meanings(old(keys)[c]) <= Meanings(keys[c])
      ensures ok && AllFit(requests, outcomes) && (forall k :: 0 <= k < |outcomes| ==> TakesEffect(outcomes[k].command)) ==>
                forall i :: 0 <= i < |requests| ==>
                  requests[i].collection in keys && Wanted(requests[i].fields) <= Meanings(keys[requests[i].collection])
      ensures AllFit(requests, outcomes) && (forall k :: 0 <= k < |outcomes| ==> AllGood(outcomes[k])) ==>
                (ok <==> enable.granted && enable.revoked && Consistent(old(keys), requests))
    {
      RunMeans(Now(), enable, requests, outcomes);
      ok := RunWithGrants(enable, ks => ks);
      if ok {
        ok := ShardAll(requests, outcomes);
      }
    }

    /** The loop over the requests. */
    method ShardAll(requests: seq<Request>, outcomes: seq<Outcomes>) returns (ok: bool)
      requires |requests| == |outcomes|
      modifies this
      ensures (Now(), ok) == Rounds(old(Now()), requests, outcomes)
    {
      for i := 0 to |requests|
        invariant (Now(), true) == Rounds(old(Now()), requests[..i], outcomes[..i])
      {
        assert requests[..i + 1][..i] == requests[..i] && outcomes[..i + 1][..i] == outcomes[..i];
        ok := RunWithGrants(outcomes[i].create, ks => ks);
        if ok {
          ok := ShardNonShardedCollection(requests[i], outcomes[i]);
        }
        if !ok {
          StoppedRun(old(Now()), requests, outcomes, i + 1);
          return;
        }
      }
      assert requests[..|requests|] == requests && outcomes[..|requests|] == outcomes;
      ok := true;
    }
  }

  /** A run that has reported an error stays as it is. */
  lemma {:induction false} StoppedRun(st: State, requests: seq<Request>, outcomes: seq<Outcomes>, i: nat)
    requires i <= |requests| == |outcomes| && !Rounds(st, requests[..i], outcomes[..i]).1
    ensures Rounds(st, requests, outcomes) == Rounds(st, requests[..i], outcomes[..i])
  {
    var n := |requests| - 1;
    if i <= n {
      assert requests[..n][..i] == requests[..i] && outcomes[..n][..i] == outcomes[..i];
      StoppedRun(st, requests[..n], outcomes[..n], i);
    } else {
      assert requests[..i] == requests && outcomes[..i] == outcomes;
    }
  }
}
