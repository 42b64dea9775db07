/** How reported member states become the status of a replica set, and gathered replica-set statuses
    the status of the cluster. */
module Health {
  import opened Wrappers

  /** `Unknown` is the empty string, which a set without pods is given. */
  datatype Status = Up | Down | Degraded | Unknown

  function Count(states: seq<string>, state: string): nat {
    if states == [] then 0 else
      Count(states[..|states| - 1], state) + (if states[|states| - 1] == state then 1 else 0)
  }

  // ----- one replica set

  function ReplicaSetStatus(active: bool, hosts: nat, primaries: nat, secondaries: nat): Status {
    if active then
      if primaries == 0 then Down else if secondaries == hosts - 1 then Up else Degraded
    else
      if secondaries == 0 then Down
      else if secondaries == hosts || (secondaries == hosts - 1 && primaries == 1) then Up
      else Degraded
  }

  /** `GetReplicaSetStatus`: without pods the answer is no status and no error. */
  method GetReplicaSetStatus(podsListed: bool, answer: Option<seq<string>>, hosts: nat, active: bool)
    returns (status: Status, err: bool)
    ensures !podsListed ==> (status, err) == (Unknown, false)
    ensures podsListed && answer.None? ==> (status, err) == (Unknown, true)
    ensures podsListed && answer.Some? ==> !err
    ensures podsListed && answer.Some? ==>
              status == ReplicaSetStatus(active, hosts, Count(answer.value, "PRIMARY"), Count(answer.value, "SECONDARY"))
  {
    if !podsListed {
      return Unknown, false;
    }
    if answer.None? {
      return Unknown, true;
    }
    var replicas := answer.value;
    var secondaryReplicas, primaryReplicas := 0, 0;
    for k := 0 to |replicas|
      invariant secondaryReplicas == Count(replicas[..k], "SECONDARY")
      invariant primaryReplicas == Count(replicas[..k], "PRIMARY")
    {
      assert replicas[..k + 1][..k] == replicas[..k];
      if replicas[k] == "SECONDARY" {
        secondaryReplicas := secondaryReplicas + 1;
      } else if replicas[k] == "PRIMARY" {
        primaryReplicas := primaryReplicas + 1;
      }
    }
    assert replicas[..|replicas|] == replicas;
    if active {
      if primaryReplicas == 0 {
        return Down, false;
      } else if secondaryReplicas == hosts - 1 {
        return Up, false;
      }
    } else {
      if secondaryReplicas == 0 {
        return Down, false;
      } else if secondaryReplicas == hosts || (secondaryReplicas == hosts - 1 && primaryReplicas == 1) {
        return Up, false;
      }
    }
    return Degraded, false;
  }

  lemma {:induction false} CountsFit(states: seq<string>)
    ensures Count(states, "PRIMARY") + Count(states, "SECONDARY") <= |states|
    ensures Count(states, "PRIMARY") + Count(states, "SECONDARY") == |states| <==>
            forall k :: 0 <= k < |states| ==> states[k] == "PRIMARY" || states[k] == "SECONDARY"
  {
    if states != [] {
      var n := |states| - 1;
      CountsFit(states[..n]);
      assert "PRIMARY" != "SECONDARY" by {
        assert "PRIMARY"[0] != "SECONDARY"[0];
      }
      if forall k :: 0 <= k < |states| ==> states[k] == "PRIMARY" || states[k] == "SECONDARY" {
        assert forall k :: 0 <= k < n ==> states[..n][k] == states[k];
      }
    }
  }

  /** Up means everyone is healthy. If no more states than hosts are reported, an active set is Up
      exactly when one member is PRIMARY and all others are SECONDARY, none missing; a set of the other
      site is Up exactly when it has a secondary and all are SECONDARY but for at most one PRIMARY. */
  lemma UpIffAllHealthy(states: seq<string>, hosts: nat)
    requires |states| <= hosts
    ensures var p, s := Count(states, "PRIMARY"), Count(states, "SECONDARY");
            && (ReplicaSetStatus(true, hosts, p, s) == Up <==> p == 1 && s == hosts - 1)
            && (ReplicaSetStatus(false, hosts, p, s) == Up <==> s > 0 && p + s == hosts && p <= 1)
    ensures forall active :: ReplicaSetStatus(active, hosts, Count(states, "PRIMARY"), Count(states, "SECONDARY")) == Up ==>
              |states| == hosts && forall k :: 0 <= k < hosts ==> states[k] == "PRIMARY" || states[k] == "SECONDARY"
  {
    CountsFit(states);
  }

  lemma {:induction false} CountZeroIff(states: seq<string>, state: string)
    ensures Count(states, state) == 0 <==> state !in states
  {
    if states != [] {
      var n := |states| - 1;
      CountZeroIff(states[..n], state);
      assert states == states[..n] + [states[n]];
    }
  }

  /** A set is Down exactly when nobody is reported in the role its site needs, the PRIMARY on the active
      site and a SECONDARY on the other one; Degraded is all the rest. */
  lemma DownIffRoleIsMissing(states: seq<string>, hosts: nat)
    requires |states| <= hosts
    ensures var p, s := Count(states, "PRIMARY"), Count(states, "SECONDARY");
            var active, passive := ReplicaSetStatus(true, hosts, p, s), ReplicaSetStatus(false, hosts, p, s);
            && (active == Down <==> "PRIMARY" !in states)
            && (passive == Down <==> "SECONDARY" !in states)
            && (active == Degraded <==> "PRIMARY" in states && !(p == 1 && s == hosts - 1))
            && (passive == Degraded <==> "SECONDARY" in states && !(p + s == hosts && p <= 1))
  {
    CountZeroIff(states, "PRIMARY");
    CountZeroIff(states, "SECONDARY");
    UpIffAllHealthy(states, hosts);
  }

  // ----- what the status query reports

  /** A member in the answer of `rs.status()`. */
  datatype MemberState = MemberState(name: string, state: string)

  /** `JsReplicasWithState`: the states of the members that are among the hosts. */
  function StatesOf(members: seq<MemberState>, hosts: seq<string>): seq<string> {
    if members == [] then [] else
      StatesOf(members[..|members| - 1], hosts) +
      (if members[|members| - 1].name in hosts then [members[|members| - 1].state] else [])
  }

  ghost predicate DistinctNames(members: seq<MemberState>) {
    forall i, j :: 0 <= i < j < |members| ==> members[i].name != members[j].name
  }

  /** A replica set lists no member twice, so the query reports at most as many states as hosts. */
  lemma {:induction false} AtMostOneStatePerHost(members: seq<MemberState>, hosts: seq<string>)
    requires DistinctNames(members)
    ensures |StatesOf(members, hosts)| <= |hosts|
  {
    if hosts == [] {
      NoStates(members);
    } else {
      var fewer, host := hosts[..|hosts| - 1], hosts[|hosts| - 1];
      AtMostOneStatePerHost(members, fewer);
      OneMoreHost(members, fewer, host);
      assert fewer + [host] == hosts;
    }
  }

  lemma {:induction false} NoStates(members: seq<MemberState>)
    ensures StatesOf(members, []) == []
  {
    if members != [] {
      NoStates(members[..|members| - 1]);
    }
  }

  lemma {:induction false} OneMoreHost(members: seq<MemberState>, hosts: seq<string>, host: string)
    requires DistinctNames(members)
    ensures |StatesOf(members, hosts + [host])| <=
            |StatesOf(members, hosts)| + (if exists k :: 0 <= k < |members| && members[k].name == host then 1 else 0)
  {
    if members != [] {
      var n := |members| - 1;
      OneMoreHost(members[..n], hosts, host);
      if k :| 0 <= k < n && members[..n][k].name == host {
        assert members[k].name == host && members[n].name != host;
      }
    }
  }

  /** Up means everyone is healthy, for whatever the replica set reports about itself. */
  lemma UpIffReportedHealthy(members: seq<MemberState>, hosts: seq<string>)
    requires DistinctNames(members)
    ensures var states := StatesOf(members, hosts);
            var p, s := Count(states, "PRIMARY"), Count(states, "SECONDARY");
            && (ReplicaSetStatus(true, |hosts|, p, s) == Up <==> p == 1 && s == |hosts| - 1)
            && (ReplicaSetStatus(false, |hosts|, p, s) == Up <==> s > 0 && p + s == |hosts| && p <= 1)
  {
    AtMostOneStatePerHost(members, hosts);
    UpIffAllHealthy(StatesOf(members, hosts), |hosts|);
  }

  // ----- the cluster

  /** What one gathering goroutine puts into the channel. */
  datatype Gather = Gather(index: nat, status: Status, failed: bool)

  datatype MongosPod = NoPod | Pod(running: bool)

  /** A status and whether an error comes with it; or an index panic. */
  datatype Answer = Panics | Returned(status: Status, err: bool)

  /** The channel holds every goroutine's result, in whatever order they finished. */
  ghost predicate Arrival(arrivals: seq<Gather>, gathered: seq<Gather>) {
    && (forall k :: 0 <= k < |arrivals| ==> arrivals[k].index < |gathered| && arrivals[k] == gathered[arrivals[k].index])
    && (forall i :: 0 <= i < |gathered| ==> gathered[i].index == i && gathered[i] in arrivals)
  }

  ghost predicate AnyFailed(gathered: seq<Gather>) {
    exists i :: 0 <= i < |gathered| && gathered[i].failed
  }

  function DownCount(gathered: seq<Gather>): nat {
    if gathered == [] then 0 else
      DownCount(gathered[..|gathered| - 1]) + (if gathered[|gathered| - 1].status == Down then 1 else 0)
  }

  ghost function ShardedStatus(active: bool, cnf: Status, gathered: seq<Gather>, mongos: MongosPod): Answer {
    if active && mongos.NoPod? then Returned(Down, true)
    else if active && !mongos.running then Returned(Down, false)
    else if cnf == Down || DownCount(gathered) == |gathered| then Returned(Down, false)
    else if cnf == Degraded || (cnf == Up && DownCount(gathered) > 0) then Returned(Degraded, false)
    else if cnf == Up then Returned(Up, false)
    else Returned(Down, false)
  }

  /** The answer as a function of what was gathered, by shard. A failed gather is answered with Down and
      no error, for the code returns the error variable of the enclosing function. */
  ghost function ClusterStatus(active: bool, cnfSize: int, sharded: bool, gathered: seq<Gather>, cnf: Gather, mongos: MongosPod): Answer {
    if AnyFailed(gathered) || (cnfSize > 0 && sharded && cnf.failed) then Returned(Down, false)
    else if sharded then ShardedStatus(active, if cnfSize > 0 then cnf.status else Unknown, gathered, mongos)
    else if gathered == [] then Panics
    else Returned(gathered[0].status, false)
  }

  /** Reads the channel; stops at the first failed gather. */
  method ReadChannel(arrivals: seq<Gather>, ghost gathered: seq<Gather>, shardCount: nat)
    returns (failed: bool, dataStatus: array<Status>)
    requires |gathered| == shardCount && Arrival(arrivals, gathered)
    ensures fresh(dataStatus) && dataStatus.Length == shardCount
    ensures failed <==> AnyFailed(gathered)
    ensures !failed ==> forall i :: 0 <= i < shardCount ==> dataStatus[i] == gathered[i].status
  {
    dataStatus := new Status[shardCount](_ => Unknown);
    for k := 0 to |arrivals|
      invariant forall j :: 0 <= j < k ==> !arrivals[j].failed && dataStatus[arrivals[j].index] == gathered[arrivals[j].index].status
    {
      if arrivals[k].failed {
        assert gathered[arrivals[k].index].failed;
        return true, dataStatus;
      }
      dataStatus[arrivals[k].index] := arrivals[k].status;
    }
    failed := false;
    forall i | 0 <= i < shardCount
      ensures dataStatus[i] == gathered[i].status && !gathered[i].failed
    {
      assert gathered[i] in arrivals;
      var j :| 0 <= j < |arrivals| && arrivals[j] == gathered[i];
    }
  }

  /** `GetClusterStatus`: the answer depends on the gathered results, not on the order in which the
      goroutines finished. */
  method GetClusterStatus(active: bool, cnfSize: int, shardCount: nat, sharded: bool, arrivals: seq<Gather>,
                          cnf: Gather, mongos: MongosPod, ghost gathered: seq<Gather>)
    returns (answer: Answer)
    requires |gathered| == shardCount && Arrival(arrivals, gathered)
    ensures answer == ClusterStatus(active, cnfSize, sharded, gathered, cnf, mongos)
  {
    var failed, dataStatus := ReadChannel(arrivals, gathered, shardCount);
    if failed {
      return Returned(Down, false);
    }
    var cnfStatus := Unknown;
    if cnfSize > 0 && sharded {
      if cnf.failed {
        return Returned(Down, false);
      }
      cnfStatus := cnf.status;
    }
    if !sharded {
      if shardCount == 0 {
        return Panics;
      }
      return Returned(dataStatus[0], false);
    }
    var dataDown := 0;
    for d := 0 to shardCount
      invariant dataDown == DownCount(gathered[..d])
    {
      assert gathered[..d + 1][..d] == gathered[..d];
      if dataStatus[d] == Down {
        dataDown := dataDown + 1;
      }
    }
    assert gathered[..shardCount] == gathered;
    if active {
      if mongos.NoPod? {
        return Returned(Down, true);
      }
      if !mongos.running {
        return Returned(Down, false);
      }
    }
    if cnfStatus == Down || dataDown == shardCount {
      return Returned(Down, false);
    }
    if cnfStatus == Degraded || (cnfStatus == Up && dataDown > 0) {
      return Returned(Degraded, false);
    } else if cnfStatus == Up && dataDown == 0 {
      return Returned(Up, false);
    }
    return Returned(Down, false);
  }

  lemma {:induction false} DownCountZero(gathered: seq<Gather>)
    ensures DownCount(gathered) <= |gathered|
    ensures DownCount(gathered) == 0 <==> forall i :: 0 <= i < |gathered| ==> gathered[i].status != Down
  {
    if gathered != [] {
      var n := |gathered| - 1;
      DownCountZero(gathered[..n]);
      if forall i :: 0 <= i < |gathered| ==> gathered[i].status != Down {
        assert forall i :: 0 <= i < n ==> gathered[..n][i] == gathered[i];
      }
      if DownCount(gathered) == 0 {
        assert forall i :: 0 <= i < n ==> gathered[..n][i] == gathered[i];
      }
    }
  }

  /** A sharded cluster is Up exactly when no gather failed, there are shards and config servers, the
      config set is Up, no shard is Down and, on the active site, a mongos pod is running. */
  lemma ClusterUpIff(active: bool, cnfSize: int, gathered: seq<Gather>, cnf: Gather, mongos: MongosPod)
    ensures ClusterStatus(active, cnfSize, true, gathered, cnf, mongos) == Returned(Up, false) <==>
            && (forall i :: 0 <= i < |gathered| ==> !gathered[i].failed && gathered[i].status != Down)
            && gathered != [] && cnfSize > 0 && !cnf.failed && cnf.status == Up
            && (active ==> mongos == Pod(true))
  {
    DownCountZero(gathered);
  }

  lemma {:induction false} AllDownIff(gathered: seq<Gather>)
    ensures DownCount(gathered) <= |gathered|
    ensures DownCount(gathered) == |gathered| <==> forall i :: 0 <= i < |gathered| ==> gathered[i].status == Down
  {
    if gathered != [] {
      var n := |gathered| - 1;
      AllDownIff(gathered[..n]);
      assert forall i :: 0 <= i < n ==> gathered[..n][i] == gathered[i];
      if forall i :: 0 <= i < n ==> gathered[..n][i].status == Down {
        assert forall i :: 0 <= i < n ==> gathered[i].status == Down;
      }
    }
  }

  /** A sharded cluster is Degraded exactly when nothing failed, a mongos pod is running if one is needed,
      some shard is not Down, and the config set is Degraded, or it is Up and some shard is Down. An
      error comes only with a missing mongos pod, and with Down; everything else is Down or Up. */
  lemma ClusterDegradedIff(active: bool, cnfSize: int, gathered: seq<Gather>, cnf: Gather, mongos: MongosPod)
    ensures var answer := ClusterStatus(active, cnfSize, true, gathered, cnf, mongos);
            && (answer == Returned(Degraded, false) <==>
                  && (forall i :: 0 <= i < |gathered| ==> !gathered[i].failed)
                  && cnfSize > 0 && !cnf.failed && (active ==> mongos == Pod(true))
                  && (exists i :: 0 <= i < |gathered| && gathered[i].status != Down)
                  && (cnf.status == Degraded ||
                      (cnf.status == Up && exists i :: 0 <= i < |gathered| && gathered[i].status == Down)))
            && (answer == Returned(Down, true) <==>
                  && (forall i :: 0 <= i < |gathered| ==> !gathered[i].failed)
                  && (cnfSize > 0 ==> !cnf.failed) && active && mongos == NoPod)
            && (answer in {Returned(Up, false), Returned(Degraded, false), Returned(Down, false), Returned(Down, true)})
  {
    AllDownIff(gathered);
    DownCountZero(gathered);
  }

  /** Without sharding the cluster is what its first shard is, unless a gather failed; with no shard at all
      the code panics. */
  lemma UnshardedIsFirstShard(active: bool, cnfSize: int, gathered: seq<Gather>, cnf: Gather, mongos: MongosPod)
    ensures ClusterStatus(active, cnfSize, false, gathered, cnf, mongos) ==
            if exists i :: 0 <= i < |gathered| && gathered[i].failed then Returned(Down, false)
            else if gathered == [] then Panics
            else Returned(gathered[0].status, false)
  {
  }

  /** Up does not mean that every shard is Up: it is still Up when all shards are Degraded or without
      pods. */
  lemma UpDespiteDegradedShards(gathered: seq<Gather>, cnf: Gather)
    requires gathered != [] && !cnf.failed && cnf.status == Up
    requires forall i :: 0 <= i < |gathered| ==> !gathered[i].failed && gathered[i].status in {Degraded, Unknown}
    ensures ClusterStatus(true, 1, true, gathered, cnf, Pod(true)) == Returned(Up, false)
  {
    ClusterUpIff(true, 1, gathered, cnf, Pod(true));
  }
}
