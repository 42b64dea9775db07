/** The rolling restart that lets grown volumes detach: one PVC ordinal at a time, every StatefulSet
    of the ordinal's group goes to zero and back, and the next ordinal waits for a healthy cluster. */
module Expansion {
  import opened Wrappers
  import opened Names

  type Counts = map<string, Option<int>>

  datatype Phase = Scaled | Detaching | Gated(healthy: bool)

  /** What the cluster looked like after a step of the run. */
  datatype Moment = Moment(ordinal: nat, group: seq<string>, phase: Phase, counts: Counts)

  datatype OwnerReference = OwnerReference(kind: string, name: string)

  /** An absent `spec.replicas` means one replica. */
  function Replicas(spec: Option<int>): int {
    match spec
    case None => 1
    case Some(n) => n
  }

  ghost predicate SameCounts(original: Counts, counts: Counts) {
    counts.Keys == original.Keys &&
    forall name :: name in original ==> Restored(original[name], counts[name])
  }

  /** A count is what it was, or 1 where none was given. */
  predicate Restored(original: Option<int>, count: Option<int>) {
    count == original || (original == None && count == Some(1))
  }

  /** Outside the group every StatefulSet has its original count; inside, that count or zero. */
  ghost predicate Confined(original: Counts, group: seq<string>, counts: Counts) {
    counts.Keys == original.Keys &&
    forall name :: name in original ==>
      Restored(original[name], counts[name]) || (name in group && counts[name] == Some(0))
  }

  ghost predicate Present(group: seq<string>, counts: Counts) {
    forall name :: name in group ==> name in counts
  }

  ghost predicate AllPresent(schema: Schema, ordinals: nat, counts: Counts) {
    forall n: nat, name :: n < ordinals && name in Group(schema, n) ==> name in counts
  }

  lemma OneMorePresent(schema: Schema, n: nat, ordinals: nat, counts: Counts)
    requires n < ordinals
    ensures AllPresent(schema, n, counts) && Present(Group(schema, n), counts) ==> AllPresent(schema, n + 1, counts)
    ensures !Present(Group(schema, n), counts) ==> !AllPresent(schema, ordinals, counts)
  {
  }

  lemma SafeLonger(original: Counts, schema: Schema, single: bool, m: nat, n: nat, history: seq<Moment>)
    requires m <= n && AllSafe(original, schema, single, m, history)
    ensures AllSafe(original, schema, single, n, history)
  {
  }

  ghost predicate Down(group: seq<string>, counts: Counts) {
    forall name :: name in group ==> name in counts && counts[name] == Some(0)
  }

  ghost predicate Remembers(counts: Counts, group: seq<string>, original: map<string, int>) {
    forall name :: name in group ==>
      && name in original && name in counts
      && (counts[name] == Some(original[name]) || (counts[name] == None && original[name] == 1))
  }

  ghost predicate Safe(original: Counts, m: Moment) {
    && Confined(original, m.group, m.counts)
    && Distinct(m.group)
    && (m.phase.Detaching? ==> Down(m.group, m.counts))
    && (m.phase.Gated? ==> SameCounts(original, m.counts))
  }

  /** Every recorded state is safe, and its group is that of its ordinal (or, in the single schema,
      what the pods' owners say). */
  ghost predicate AllSafe(original: Counts, schema: Schema, single: bool, ordinals: nat, history: seq<Moment>) {
    forall k :: 0 <= k < |history| ==>
      && Safe(original, history[k])
      && history[k].ordinal < ordinals
      && (single || history[k].group == Group(schema, history[k].ordinal))
  }

  /** The recorded states include the present one, so nothing is changed behind the record. */
  ghost predicate Recorded(start: Counts, history: seq<Moment>, counts: Counts) {
    counts == if history == [] then start else history[|history| - 1].counts
  }

  lemma RecordedOn(start: Counts, past: seq<Moment>, mid: Counts, history: seq<Moment>, counts: Counts)
    requires Recorded(start, past, mid) && past <= history && Recorded(mid, history[|past|..], counts)
    ensures Recorded(start, history, counts)
  {
  }

  /** Ordinals come in order, one is left only through a passed health gate, and nothing follows a
      gate that failed. */
  ghost predicate Ordered(history: seq<Moment>) {
    && (forall i, j :: 0 <= i < j < |history| ==> history[i].ordinal <= history[j].ordinal)
    && (forall i, j :: 0 <= i < j < |history| && history[i].ordinal < history[j].ordinal ==>
          PassedGate(history, i, j))
    && (forall i :: 0 <= i < |history| - 1 ==> history[i].phase != Gated(false))
  }

  ghost predicate PassedGate(history: seq<Moment>, i: int, j: int)
    requires 0 <= i < j <= |history|
  {
    exists k :: i <= k < j && history[k].ordinal == history[i].ordinal && history[k].phase == Gated(true)
  }

  /** Ordinal `n` went through its whole cycle. */
  ghost predicate Cycled(history: seq<Moment>, n: nat) {
    exists d, g :: 0 <= d < g < |history| &&
      history[d].ordinal == n && history[d].phase == Detaching &&
      history[g].ordinal == n && history[g].phase == Gated(true)
  }

  /** In a replica set at most the member of the current ordinal is not at its original count. */
  lemma OneMemberDown(schema: Schema, original: Counts, m: Moment, shard: nat, i: nat)
    requires DecimalsUnambiguous(schema) && Safe(original, m) && m.group == Group(schema, m.ordinal)
    ensures CnfName(i) in original && i < schema.cnf && i != m.ordinal ==>
              Restored(original[CnfName(i)], m.counts[CnfName(i)])
    ensures DataName(shard, i) in original && 1 <= shard <= schema.shards && i < schema.data && i != m.ordinal ==>
              Restored(original[DataName(shard, i)], m.counts[DataName(shard, i)])
  {
    InGroup(schema, i, CnfName(i));
    InGroup(schema, i, DataName(shard, i));
    if i != m.ordinal {
      GroupsDisjoint(schema, i, m.ordinal);
    }
  }

  lemma StillSafe(original: Counts, schema: Schema, single: bool, n: nat, past: seq<Moment>, history: seq<Moment>)
    requires past <= history && AllSafe(original, schema, single, n, past)
    requires forall k :: |past| <= k < |history| ==>
               history[k].ordinal == n && Safe(original, history[k]) && (single || history[k].group == Group(schema, n))
    ensures AllSafe(original, schema, single, n + 1, history)
  {
    forall k | 0 <= k < |past|
      ensures history[k] == past[k]
    {
    }
  }

  lemma StillOrdered(past: seq<Moment>, history: seq<Moment>, n: nat)
    requires past <= history && Ordered(past)
    requires |past| > 0 ==> past[|past| - 1].phase == Gated(true)
    requires forall k :: 0 <= k < |past| ==> past[k].ordinal < n
    requires forall k :: |past| <= k < |history| ==> history[k].ordinal == n
    requires forall k :: |past| <= k < |history| - 1 ==> !history[k].phase.Gated?
    ensures Ordered(history)
  {
    forall i, j | 0 <= i < j < |history| && history[i].ordinal < history[j].ordinal
      ensures PassedGate(history, i, j)
    {
      if j < |past| {
        assert past[i].ordinal < past[j].ordinal && PassedGate(past, i, j);
        var k :| i <= k < j && past[k].ordinal == past[i].ordinal && past[k].phase == Gated(true);
        assert history[k] == past[k];
      } else {
        var last := |past| - 1;
        if past[i].ordinal < past[last].ordinal {
          assert PassedGate(past, i, last);
          var k :| i <= k < last && past[k].ordinal == past[i].ordinal && past[k].phase == Gated(true);
          assert history[k] == past[k];
        } else {
          assert history[last] == past[last] && past[i].ordinal == past[last].ordinal;
        }
      }
    }
  }

  lemma StillCycled(past: seq<Moment>, history: seq<Moment>)
    requires past <= history
    ensures forall n: nat :: Cycled(past, n) ==> Cycled(history, n)
  {
    forall n: nat | Cycled(past, n)
      ensures Cycled(history, n)
    {
      var d, g :| 0 <= d < g < |past| && past[d].ordinal == n && past[d].phase == Detaching &&
        past[g].ordinal == n && past[g].phase == Gated(true);
      assert history[d] == past[d] && history[g] == past[g];
    }
  }

  /** What holds of every run, whenever it stops. */
  ghost predicate Sound(original: Counts, schema: Schema, single: bool, ordinals: nat, history: seq<Moment>, counts: Counts) {
    AllSafe(original, schema, single, ordinals, history) && Ordered(history) && Recorded(original, history, counts)
  }

  /** The same in raw counts: at no point of a run has a StatefulSet outside the group of the moment
      another count than it started with, or 1 where it had none, and during the detach wait the whole
      group is at zero. */
  lemma SoundInRawCounts(original: Counts, schema: Schema, single: bool, ordinals: nat, history: seq<Moment>, counts: Counts)
    requires Sound(original, schema, single, ordinals, history, counts)
    ensures forall k, name :: 0 <= k < |history| && name in original && name !in history[k].group ==>
              && name in history[k].counts
              && (history[k].counts[name] == original[name] || (original[name] == None && history[k].counts[name] == Some(1)))
    ensures forall k, name :: 0 <= k < |history| && history[k].phase == Detaching && name in history[k].group ==>
              name in history[k].counts && history[k].counts[name] == Some(0)
  {
    forall k | 0 <= k < |history|
      ensures Safe(original, history[k])
    {
    }
  }

  /** What holds between two ordinals of a run, `n` of them done. */
  ghost predicate Between(original: Counts, schema: Schema, single: bool, n: nat, history: seq<Moment>, counts: Counts) {
    && AllSafe(original, schema, single, n, history)
    && Ordered(history)
    && (|history| > 0 ==> history[|history| - 1].phase == Gated(true))
    && SameCounts(original, counts)
    && (!single ==> forall k: nat :: k < n && Group(schema, k) != [] ==> Cycled(history, k))
  }

  lemma Skip(original: Counts, schema: Schema, single: bool, n: nat, ordinals: nat, history: seq<Moment>, counts: Counts)
    requires n < ordinals && Between(original, schema, single, n, history, counts) && Recorded(original, history, counts)
    ensures Sound(original, schema, single, ordinals, history, counts)
    ensures single || Group(schema, n) == [] ==> Between(original, schema, single, n + 1, history, counts)
  {
    SafeLonger(original, schema, single, n, ordinals, history);
    SafeLonger(original, schema, single, n, n + 1, history);
  }

  lemma Advance(original: Counts, schema: Schema, single: bool, n: nat, ordinals: nat, past: seq<Moment>,
                before: Counts, history: seq<Moment>, counts: Counts, group: seq<string>, ok: bool)
    requires n < ordinals && Recorded(original, history, counts)
    requires past <= history && Between(original, schema, single, n, past, before)
    requires single || group == Group(schema, n)
    requires forall k :: |past| <= k < |history| ==>
               history[k].ordinal == n && history[k].group == group && Safe(original, history[k])
    requires forall k :: |past| <= k < |history| - 1 ==> !history[k].phase.Gated?
    requires ok ==> SameCounts(original, counts) && Cycled(history, n)
    requires ok ==> |history| > |past| && history[|history| - 1].phase == Gated(true)
    ensures Sound(original, schema, single, ordinals, history, counts)
    ensures ok ==> Between(original, schema, single, n + 1, history, counts)
  {
    StillSafe(original, schema, single, n, past, history);
    SafeLonger(original, schema, single, n + 1, ordinals, history);
    StillOrdered(past, history, n);
    StillCycled(past, history);
  }

  lemma OneMoreDown(original: Counts, group: seq<string>, k: nat, counts: Counts)
    requires Distinct(group) && k < |group| && Confined(original, group[..k], counts) && Down(group[..k], counts)
    ensures Confined(original, group, counts)
    ensures group[..k + 1] == group[..k] + [group[k]] && group[k] !in group[..k]
    ensures group[k] in counts ==>
              && Restored(original[group[k]], counts[group[k]])
              && Confined(original, group, counts[group[k] := Some(0)])
              && Confined(original, group[..k + 1], counts[group[k] := Some(0)])
              && Down(group[..k + 1], counts[group[k] := Some(0)])
  {
    assert group[..k + 1] == group[..k] + [group[k]];
    forall name | name in group[..k]
      ensures name in group && name != group[k]
    {
    }
  }

  /** What a run leaves: all counts, or those of one group partly at zero. */
  ghost predicate LeftByRun(original: Counts, counts: Counts) {
    exists group :: Distinct(group) && Confined(original, group, counts)
  }

  lemma LeftBehind(original: Counts, schema: Schema, single: bool, ordinals: nat, history: seq<Moment>, counts: Counts)
    requires Sound(original, schema, single, ordinals, history, counts)
    ensures LeftByRun(original, counts)
  {
    if history == [] {
      assert Distinct<string>([]) && Confined(original, [], counts);
    } else {
      assert Safe(original, history[|history| - 1]);
    }
  }

  /** After an aborted restart a later one that succeeds brings the counts back exactly when nothing was
      left at zero that was not at zero before. */
  lemma RestoredIff(original: Counts, group: seq<string>, between: Counts, after: Counts)
    requires Confined(original, group, between) && SameCounts(between, after)
    ensures SameCounts(original, after) <==>
            forall name :: name in original && between[name] == Some(0) ==> original[name] == Some(0)
  {
    if SameCounts(original, after) {
      forall name | name in original && between[name] == Some(0)
        ensures original[name] == Some(0)
      {
        assert Restored(original[name], after[name]) && Restored(between[name], after[name]);
      }
    }
  }

  lemma OneMoreUp(before: Counts, group: seq<string>, k: nat, counts: Counts, original: map<string, int>)
    requires k < |group| && Confined(before, group[k..], counts) && Remembers(before, group, original)
    ensures group[k] in original && group[k] in counts && Confined(before, group, counts)
    ensures Confined(before, group, counts[group[k] := Some(original[group[k]])])
    ensures Confined(before, group[k + 1..], counts[group[k] := Some(original[group[k]])])
  {
    assert group[k..] == [group[k]] + group[k + 1..];
    forall name | name in group[k..]
      ensures name in group
    {
    }
  }

  lemma ScaledIsSafe(before: Counts, start: Counts, group: seq<string>, n: nat, history: seq<Moment>, from: nat)
    requires Distinct(group) && SameCounts(before, start)
    requires forall k :: from <= k < |history| ==>
               history[k] == Moment(n, group, Scaled, history[k].counts) && Confined(start, group, history[k].counts)
    ensures forall k :: from <= k < |history| ==>
              history[k].ordinal == n && history[k].group == group && !history[k].phase.Gated? && Safe(before, history[k])
  {
  }

  lemma SameStart(before: Counts, start: Counts, group: seq<string>, counts: Counts, original: map<string, int>)
    requires SameCounts(before, start) && Confined(start, group, counts) && Remembers(start, group, original)
    ensures Confined(before, group, counts) && Remembers(before, group, original)
  {
  }

  /** What is left is as it was. */
  ghost predicate OnlyRemoved(before: Counts, after: Counts) {
    forall name :: name in after ==> name in before && after[name] == before[name]
  }

  ghost predicate MemberOf(shard: nat, data: int, name: string) {
    exists j: nat :: j < data && name == DataName(shard, j)
  }

  /** When exactly the created StatefulSets exist, all groups are there if and only if the cluster is
      sharded: without sharding the loop asks for config-server StatefulSets that nothing creates. */
  lemma GroupsPresentIff(schema: Schema, counts: Counts)
    requires forall name :: name in counts <==> Created(schema, name)
    ensures AllPresent(schema, AtLeastZero(PvcCount(schema)), counts) <==> schema.sharded || schema.cnf <= 0
  {
    GroupsAreTheCreated(schema);
    forall name {
      GroupsCover(schema, name);
    }
    if !AllPresent(schema, AtLeastZero(PvcCount(schema)), counts) {
      var n: nat, name :| n < AtLeastZero(PvcCount(schema)) && name in Group(schema, n) && name !in counts;
      assert InSomeGroup(schema, name);
    } else {
      forall name | InSomeGroup(schema, name)
        ensures name in counts
      {
        var n: nat :| n < PvcCount(schema) && name in Group(schema, n);
      }
    }
  }

  ghost predicate OwnsPod(pods: seq<seq<OwnerReference>>, name: string) {
    exists p, k :: 0 <= p < |pods| && 0 <= k < |pods[p]| && pods[p][k] == OwnerReference("StatefulSet", name)
  }

  /** The methods take `reliable`: in a reliable run no call fails and every health gate passes. */
  class Cluster {
    /** `spec.replicas` of every StatefulSet. */
    var replicas: Counts
    /** The owners of each MongoDB pod there is; pods come and go with the counts. */
    var pods: seq<seq<OwnerReference>>
    /** The steps of the current restart run. */
    ghost var history: seq<Moment>

    constructor (replicas: Counts, pods: seq<seq<OwnerReference>>)
      ensures this.replicas == replicas && this.pods == pods && history == []
    {
      this.replicas := replicas;
      this.pods := pods;
      history := [];
    }

    method GetStatefulSetByName(name: string, reliable: bool) returns (r: Result<Option<int>>)
      ensures r.Success? ==> name in replicas && r.value == replicas[name]
      ensures reliable ==> (r.Success? <==> name in replicas)
    {
      var failed := *;
      if (failed && !reliable) || name !in replicas {
        return Failure;
      }
      return Success(replicas[name]);
    }

    /** A failed call may still have taken effect: it also waits for the pods. */
    method ScaleStatefulSetByName(name: string, n: int, reliable: bool, ghost ordinal: nat, ghost group: seq<string>)
      returns (ok: bool)
      modifies this
      ensures reliable ==> (ok <==> name in old(replicas))
      ensures ok ==> name in old(replicas)
      ensures replicas == old(replicas) || (name in old(replicas) && replicas == old(replicas)[name := Some(n)])
      ensures ok ==> replicas == old(replicas)[name := Some(n)]
      ensures history == old(history) + [Moment(ordinal, group, Scaled, replicas)]
    {
      var applied := *;
      ok := *;
      ok := (ok || reliable) && name in replicas;
      if name in replicas && (applied || ok) {
        replicas := replicas[name := Some(n)];
        pods := *;
      }
      history := history + [Moment(ordinal, group, Scaled, replicas)];
    }

    method ListPods(reliable: bool) returns (r: Result<seq<seq<OwnerReference>>>)
      ensures reliable ==> r.Success?
      ensures r.Success? ==> r.value == pods
    {
      var failed := *;
      r := if failed && !reliable then Failure else Success(pods);
    }

    /** The single schema: the StatefulSets that own pods, each once. */
    static method OwnersOf(pods: seq<seq<OwnerReference>>) returns (names: seq<string>)
      ensures Distinct(names)
      ensures forall name :: name in names <==>
                (exists p, r :: 0 <= p < |pods| && 0 <= r < |pods[p]| && pods[p][r] == OwnerReference("StatefulSet", name))
    {
      names := [];
      for p := 0 to |pods|
        invariant Distinct(names)
        invariant forall name :: name in names <==>
                    (exists q, r :: 0 <= q < p && 0 <= r < |pods[q]| && pods[q][r] == OwnerReference("StatefulSet", name))
      {
        for r := 0 to |pods[p]|
          invariant Distinct(names)
          invariant forall name :: name in names <==>
                      || (exists q, k :: 0 <= q < p && 0 <= k < |pods[q]| && pods[q][k] == OwnerReference("StatefulSet", name))
                      || (exists k :: 0 <= k < r && pods[p][k] == OwnerReference("StatefulSet", name))
        {
          var ref := pods[p][r];
          if ref.kind == "StatefulSet" && ref.name !in names {
            names := names + [ref.name];
          }
        }
      }
    }

    static method GroupNames(schema: Schema, n: nat) returns (names: seq<string>)
      ensures names == Group(schema, n)
    {
      names := [];
      if n < schema.cnf {
        names := names + [CnfName(n)];
      }
      ghost var base := names;
      var shard := 1;
      while shard <= schema.shards
        invariant 1 <= shard && (shard == 1 || shard <= schema.shards + 1)
        invariant names == base + if n < schema.data then DataMembers(shard - 1, n) else []
        decreases schema.shards - shard
      {
        if n < schema.data {
          OneMoreShard(base, shard, n);
          names := names + [DataName(shard, n)];
        }
        shard := shard + 1;
      }
      assert AtLeastZero(schema.shards) == shard - 1;
      SameShards(schema.shards, shard - 1, n);
    }

    /** Reads the count of each StatefulSet of the group and scales it to zero. */
    method ScaleDown(group: seq<string>, reliable: bool, ghost ordinal: nat) returns (ok: bool, original: map<string, int>)
      requires Distinct(group)
      modifies this
      ensures old(history) <= history && Recorded(old(replicas), history[|old(history)|..], replicas)
      ensures forall k :: |old(history)| <= k < |history| ==>
                history[k] == Moment(ordinal, group, Scaled, history[k].counts) &&
                Confined(old(replicas), group, history[k].counts)
      ensures ok ==> Confined(old(replicas), group, replicas) && Down(group, replicas)
      ensures ok ==> Remembers(old(replicas), group, original)
      ensures reliable ==> (ok <==> Present(group, old(replicas)))
    {
      original := map[];
      for k := 0 to |group|
        invariant old(history) <= history && Recorded(old(replicas), history[|old(history)|..], replicas)
        invariant forall i :: |old(history)| <= i < |history| ==>
                    history[i] == Moment(ordinal, group, Scaled, history[i].counts) &&
                    Confined(old(replicas), group, history[i].counts)
        invariant Confined(old(replicas), group[..k], replicas) && Down(group[..k], replicas)
        invariant Remembers(old(replicas), group[..k], original)
      {
        OneMoreDown(old(replicas), group, k, replicas);
        var spec := GetStatefulSetByName(group[k], reliable);
        if spec.Failure? {
          return false, original;
        }
        original := original[group[k] := Replicas(spec.value)];
        var scaled := ScaleStatefulSetByName(group[k], 0, reliable, ordinal, group);
        if !scaled {
          return false, original;
        }
      }
      assert group[..|group|] == group;
      ok := true;
    }

    method ScaleUp(group: seq<string>, original: map<string, int>, reliable: bool, ghost ordinal: nat, ghost before: Counts)
      returns (ok: bool)
      requires Confined(before, group, replicas)
      requires Remembers(before, group, original)
      modifies this
      ensures old(history) <= history && Recorded(old(replicas), history[|old(history)|..], replicas)
      ensures forall k :: |old(history)| <= k < |history| ==>
                history[k] == Moment(ordinal, group, Scaled, history[k].counts) &&
                Confined(before, group, history[k].counts)
      ensures ok ==> SameCounts(before, replicas)
      ensures reliable ==> ok
    {
      for k := 0 to |group|
        invariant old(history) <= history && Recorded(old(replicas), history[|old(history)|..], replicas)
        invariant forall i :: |old(history)| <= i < |history| ==>
                    history[i] == Moment(ordinal, group, Scaled, history[i].counts) &&
                    Confined(before, group, history[i].counts)
        invariant Confined(before, group[k..], replicas)
      {
        OneMoreUp(before, group, k, replicas, original);
        var scaled := ScaleStatefulSetByName(group[k], original[group[k]], reliable, ordinal, group);
        if !scaled {
          return false;
        }
      }
      ok := true;
    }

    /** Polls `GetClusterStatus` until it answers Up or time is out. */
    method HealthGate(reliable: bool, ghost ordinal: nat, ghost group: seq<string>) returns (healthy: bool)
      modifies this`history
      ensures reliable ==> healthy
      ensures history == old(history) + [Moment(ordinal, group, Gated(healthy), replicas)]
    {
      healthy := *;
      healthy := healthy || reliable;
      history := history + [Moment(ordinal, group, Gated(healthy), replicas)];
    }

    /** One PVC: down, detach, up, health. */
    method RestartGroup(group: seq<string>, reliable: bool, ghost n: nat, ghost before: Counts) returns (ok: bool)
      requires Distinct(group) && SameCounts(before, replicas)
      modifies this
      ensures old(history) <= history && Recorded(old(replicas), history[|old(history)|..], replicas)
      ensures forall k :: |old(history)| <= k < |history| ==>
                history[k].ordinal == n && history[k].group == group && Safe(before, history[k])
      ensures forall k :: |old(history)| <= k < |history| - 1 ==> !history[k].phase.Gated?
      ensures ok ==> SameCounts(before, replicas) && Cycled(history, n)
      ensures ok ==> |history| > |old(history)| && history[|history| - 1].phase == Gated(true)
      ensures reliable ==> (ok <==> Present(group, before))
    {
      ghost var start, past := replicas, |history|;
      var down, original := ScaleDown(group, reliable, n);
      ScaledIsSafe(before, start, group, n, history, past);
      if !down {
        return false;
      }
      ghost var detach := |history|;
      history := history + [Moment(n, group, Detaching, replicas)];
      SameStart(before, start, group, replicas, original);
      ghost var below := |history|;
      var up := ScaleUp(group, original, reliable, n, before);
      ScaledIsSafe(before, before, group, n, history, below);
      if !up {
        return false;
      }
      ok := HealthGate(reliable, n, group);
      assert history[detach].phase == Detaching && history[detach].ordinal == n;
      assert history[|history| - 1] == Moment(n, group, Gated(ok), replicas) && detach < |history| - 1;
    }

    /** The StatefulSets that the code takes to share PVC `n`. */
    method GroupFor(schema: Schema, single: bool, n: nat, reliable: bool) returns (r: Result<seq<string>>)
      ensures reliable ==> r.Success?
      ensures r.Success? ==> Distinct(r.value) && (single || r.value == Group(schema, n))
      ensures r.Success? && single ==> forall name :: name in r.value <==> OwnsPod(pods, name)
    {
      if single {
        var list := ListPods(reliable);
        if list.Failure? {
          return Failure;
        }
        var names := OwnersOf(list.value);
        return Success(names);
      }
      var names := GroupNames(schema, n);
      GroupDistinct(schema, n);
      return Success(names);
    }

    /** The body of the PVC loop. */
    method RestartNext(schema: Schema, single: bool, n: nat, reliable: bool, ghost ordinals: nat, ghost original: Counts)
      returns (ok: bool)
      requires n < ordinals && Between(original, schema, single, n, history, replicas)
      requires Recorded(original, history, replicas)
      modifies this
      ensures Sound(original, schema, single, ordinals, history, replicas)
      ensures ok ==> Between(original, schema, single, n + 1, history, replicas)
      ensures reliable && !single ==> (ok <==> Present(Group(schema, n), original))
      ensures ok && single && (exists name :: OwnsPod(old(pods), name)) ==> Cycled(history, n)
    {
      var group := GroupFor(schema, single, n, reliable);
      if group.Failure? || |group.value| == 0 {
        Skip(original, schema, single, n, ordinals, history, replicas);
        return group.Success?;
      }
      ghost var past, before := history, replicas;
      ok := RestartGroup(group.value, reliable, n, original);
      RecordedOn(original, past, before, history, replicas);
      Advance(original, schema, single, n, ordinals, past, before, history, replicas, group.value, ok);
    }

    /** `OnNeedsRestart`. On every run, error exits included, each recorded state only touches the
        group of the current ordinal; a run that succeeds put every non-empty group through its whole
        cycle and ends with the original counts; and a reliable run succeeds exactly when all StatefulSets
        it derives are there. The raw counts are spelled out: a successful run restores each of them. */
    method OnNeedsRestart(schema: Schema, single: bool, pvcNames: seq<string>, reliable: bool) returns (ok: bool)
      modifies this
      ensures Sound(old(replicas), schema, single, |pvcNames|, history, replicas)
      ensures forall k, name :: 0 <= k < |history| && name in old(replicas) && name !in history[k].group ==>
                && name in history[k].counts
                && (history[k].counts[name] == old(replicas)[name] ||
                    (old(replicas)[name] == None && history[k].counts[name] == Some(1)))
      ensures forall k, name :: 0 <= k < |history| && history[k].phase == Detaching && name in history[k].group ==>
                name in history[k].counts && history[k].counts[name] == Some(0)
      ensures ok ==> SameCounts(old(replicas), replicas)
      ensures ok ==> forall name :: name in old(replicas) ==>
                && name in replicas
                && (replicas[name] == old(replicas)[name] || (old(replicas)[name] == None && replicas[name] == Some(1)))
      ensures ok && !single ==> forall n: nat :: n < |pvcNames| && Group(schema, n) != [] ==> Cycled(history, n)
      ensures reliable && !single ==> (ok <==> AllPresent(schema, |pvcNames|, old(replicas)))
    {
      history := [];
      for n := 0 to |pvcNames|
        invariant Between(old(replicas), schema, single, n, history, replicas)
        invariant Sound(old(replicas), schema, single, |pvcNames|, history, replicas)
        invariant reliable && !single ==> AllPresent(schema, n, old(replicas))
      {
        ok := RestartNext(schema, single, n, reliable, |pvcNames|, old(replicas));
        OneMorePresent(schema, n, |pvcNames|, old(replicas));
        if !ok {
          SoundInRawCounts(old(replicas), schema, single, |pvcNames|, history, replicas);
          return;
        }
      }
      SoundInRawCounts(old(replicas), schema, single, |pvcNames|, history, replicas);
      ok := true;
    }

    /** A restart and the one of the next reconciliation. The second restores what it finds, so if it
        succeeds the cluster is back at its first counts exactly when the first run left it there. */
    method RestartTwice(schema: Schema, single: bool, pvcNames: seq<string>, reliable: bool)
      returns (first: bool, second: bool, ghost between: Counts)
      modifies this
      ensures first ==> SameCounts(old(replicas), between)
      ensures second ==> SameCounts(between, replicas)
      ensures second ==> (SameCounts(old(replicas), replicas) <==> SameCounts(old(replicas), between))
      ensures LeftByRun(old(replicas), between)
    {
      ghost var original := replicas;
      first := OnNeedsRestart(schema, single, pvcNames, false);
      between := replicas;
      LeftBehind(original, schema, single, |pvcNames|, history, between);
      second := OnNeedsRestart(schema, single, pvcNames, reliable);
    }

    // ----- deletion of a standby site's StatefulSets

    method DeleteStatefulsetAndPods(name: string) returns (ok: bool)
      modifies this`replicas
      ensures replicas == old(replicas) || replicas == old(replicas) - {name}
      ensures ok ==> replicas == old(replicas) - {name}
    {
      var applied := *;
      ok := *;
      if applied || ok {
        replicas := replicas - {name};
      }
    }

    method RemoveConfigRS(cnf: int) returns (ok: bool)
      modifies this`replicas
      ensures OnlyRemoved(old(replicas), replicas)
      ensures forall name :: name in old(replicas) && name !in replicas ==> exists i: nat :: i < cnf && name == CnfName(i)
      ensures ok ==> forall i: nat :: i < cnf ==> CnfName(i) !in replicas
    {
      var i := 0;
      while i < cnf
        invariant 0 <= i && OnlyRemoved(old(replicas), replicas)
        invariant forall name :: name in old(replicas) && name !in replicas ==> exists k: nat :: k < cnf && name == CnfName(k)
        invariant forall k: nat :: k < i ==> CnfName(k) !in replicas
      {
        ok := DeleteStatefulsetAndPods(CnfName(i));
        if !ok {
          return;
        }
        i := i + 1;
      }
      ok := true;
    }

    /** The inner loop of `RemoveDataRS`. */
    method RemoveShard(shard: nat, data: int) returns (ok: bool)
      modifies this`replicas
      ensures OnlyRemoved(old(replicas), replicas)
      ensures forall name :: name in old(replicas) && name !in replicas ==> MemberOf(shard, data, name)
      ensures ok ==> forall k: nat :: k < data ==> DataName(shard, k) !in replicas
    {
      var j := 0;
      while j < data
        invariant 0 <= j && OnlyRemoved(old(replicas), replicas)
        invariant forall name :: name in old(replicas) && name !in replicas ==> MemberOf(shard, data, name)
        invariant forall k: nat :: k < j ==> DataName(shard, k) !in replicas
      {
        ok := DeleteStatefulsetAndPods(DataName(shard, j));
        if !ok {
          return;
        }
        j := j + 1;
      }
      ok := true;
    }

    method RemoveDataRS(data: int, shards: int) returns (ok: bool)
      modifies this`replicas
      ensures OnlyRemoved(old(replicas), replicas)
      ensures forall name :: name in old(replicas) && name !in replicas ==>
                exists s: nat :: 1 <= s <= shards && MemberOf(s, data, name)
      ensures ok ==> forall s: nat, name :: 1 <= s <= shards && MemberOf(s, data, name) ==> name !in replicas
    {
      var i := 1;
      while i < shards + 1
        invariant 1 <= i && OnlyRemoved(old(replicas), replicas)
        invariant forall name :: name in old(replicas) && name !in replicas ==>
                    exists s: nat :: 1 <= s <= shards && MemberOf(s, data, name)
        invariant forall s: nat, name :: 1 <= s < i && MemberOf(s, data, name) ==> name !in replicas
      {
        ok := RemoveShard(i, data);
        if !ok {
          return;
        }
        i := i + 1;
      }
      ok := true;
    }
  }
}
