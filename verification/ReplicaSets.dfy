/** Replica-set configurations and the JavaScript that rewrites them. */
module ReplicaSets {
  import opened Hosts
  import opened Decimal

  datatype Member = Member(id: int, host: string, priority: int, votes: int, arbiterOnly: bool)

  function HostsOf(members: seq<Member>): seq<string> {
    seq(|members|, k requires 0 <= k < |members| => members[k].host)
  }

  predicate HasHost(members: seq<Member>, host: string) {
    exists k :: 0 <= k < |members| && members[k].host == host
  }

  ghost predicate DistinctHosts(members: seq<Member>) {
    forall i, j :: 0 <= i < j < |members| ==> members[i].host != members[j].host
  }

  // ----- reconfiguration

  function Shown(m: Member, hidden: seq<string>): Member {
    if m.host in hidden then m.(priority := 0, votes := 0) else m.(priority := 1, votes := 1)
  }

  /** The configuration `JsTemplate` submits. */
  function Reconfigured(members: seq<Member>, hidden: seq<string>): seq<Member> {
    seq(|members|, k requires 0 <= k < |members| => Shown(members[k], hidden))
  }

  method JsTemplate(members: seq<Member>, hidden: seq<string>) returns (cfg: seq<Member>)
    ensures cfg == Reconfigured(members, hidden)
  {
    cfg := [];
    for k := 0 to |members|
      invariant |cfg| == k && forall j :: 0 <= j < k ==> cfg[j] == Shown(members[j], hidden)
    {
      var m := members[k];
      m := m.(priority := if m.host in hidden then 0 else 1);
      m := m.(votes := if m.host in hidden then 0 else 1);
      cfg := cfg + [m];
    }
  }

  /** `JsCheckReconfigNeeded`: it asks for a reconfiguration exactly when one would change something. */
  method JsCheckReconfigNeeded(members: seq<Member>, hidden: seq<string>) returns (needed: bool)
    ensures needed <==> Reconfigured(members, hidden) != members
  {
    needed := false;
    for k := 0 to |members|
      invariant needed <==> exists j :: 0 <= j < k && Shown(members[j], hidden) != members[j]
    {
      var m := members[k];
      var shouldBeHidden := m.host in hidden;
      if shouldBeHidden && (m.priority != 0 || m.votes != 0) {
        needed := true;
      }
      if !shouldBeHidden && (m.priority != 1 || m.votes != 1) {
        needed := true;
      }
    }
    if needed {
      var j :| 0 <= j < |members| && Shown(members[j], hidden) != members[j];
      assert Reconfigured(members, hidden)[j] != members[j];
    }
  }

  /** A reconfiguration forgets every earlier one and keeps hosts, ids and order. */
  lemma ReconfigureForgets(members: seq<Member>, earlier: seq<string>, hidden: seq<string>)
    ensures Reconfigured(Reconfigured(members, earlier), hidden) == Reconfigured(members, hidden)
    ensures HostsOf(Reconfigured(members, hidden)) == HostsOf(members)
    ensures forall k :: 0 <= k < |members| ==> Reconfigured(members, hidden)[k].id == members[k].id
  {
    forall k | 0 <= k < |members|
      ensures Reconfigured(Reconfigured(members, earlier), hidden)[k] == Reconfigured(members, hidden)[k]
    {
      var once := Reconfigured(members, earlier)[k];
      assert once.host == members[k].host;
    }
  }

  // ----- renaming to another domain

  function Renamed(members: seq<Member>, newDomain: string, otherDomain: string): seq<Member> {
    seq(|members|, k requires 0 <= k < |members| => RenamedMember(members[k], newDomain, otherDomain))
  }

  function RenamedMember(m: Member, newDomain: string, otherDomain: string): Member {
    m.(host := RenameHost(m.host, newDomain, otherDomain).0)
  }

  predicate Moves(m: Member, newDomain: string, otherDomain: string) {
    RenameHost(m.host, newDomain, otherDomain).1
  }

  /** The callback of the rename loop. */
  method JsRenameMember(member: Member, newDomain: string, otherDomain: string) returns (m: Member, changed: bool)
    ensures m == RenamedMember(member, newDomain, otherDomain)
    ensures changed <==> Moves(member, newDomain, otherDomain)
    ensures !changed ==> m == member
  {
    m, changed := member, false;
    var parts := Split(m.host, SVC);
    if |parts| != 2 {
      return;
    }
    var currentDomain := Split(parts[1], ":")[0];
    if currentDomain == newDomain || currentDomain == otherDomain {
      return;
    }
    var port := if IndexOf(parts[1], ":") >= 0 then ":" + Split(parts[1], ":")[1] else PORT;
    m := m.(host := parts[0] + SVC + newDomain + port);
    changed := true;
  }

  /** `JsRenameMemberDomain` up to its decision to reconfigure. */
  method JsRenameMemberDomain(members: seq<Member>, newDomain: string, otherDomain: string)
    returns (cfg: seq<Member>, changed: bool)
    ensures cfg == Renamed(members, newDomain, otherDomain)
    ensures changed <==> exists k :: 0 <= k < |members| && Moves(members[k], newDomain, otherDomain)
    ensures !changed ==> cfg == members
  {
    cfg, changed := [], false;
    ghost var mover := 0;
    for k := 0 to |members|
      invariant |cfg| == k
      invariant forall j :: 0 <= j < k ==> cfg[j] == RenamedMember(members[j], newDomain, otherDomain)
      invariant changed ==> mover < k && Moves(members[mover], newDomain, otherDomain)
      invariant !changed ==> cfg == members[..k]
      invariant !changed ==> forall j :: 0 <= j < k ==> !Moves(members[j], newDomain, otherDomain)
    {
      assert members[..k + 1] == members[..k] + [members[k]];
      var m, renamed := JsRenameMember(members[k], newDomain, otherDomain);
      cfg := cfg + [m];
      if renamed {
        changed, mover := true, k;
      }
    }
  }

  /** A configuration whose hosts are built names, given by member number and domain. */
  ghost predicate BuiltFrom(members: seq<Member>, key: SetKey, namespace: string, numbers: seq<nat>, domains: seq<string>) {
    |members| == |numbers| == |domains| &&
    forall k :: 0 <= k < |members| ==> members[k].host == HostName(key, numbers[k], namespace, domains[k])
  }

  /** Renaming a configuration that mixes one old domain with the other site moves exactly the old
      members, keeps the hosts distinct, and finds nothing to do the second time. */
  lemma RenameBuilt(members: seq<Member>, key: SetKey, namespace: string, numbers: seq<nat>, domains: seq<string>,
                    oldDomain: string, newDomain: string, otherDomain: string)
    requires DotFree(namespace) && namespace != "svc"
    requires ColonFree(oldDomain) && ColonFree(newDomain) && ColonFree(otherDomain) && !Contains(oldDomain, SVC)
    requires newDomain != otherDomain
    requires BuiltFrom(members, key, namespace, numbers, domains) && DistinctHosts(members)
    requires forall k :: 0 <= k < |domains| ==> domains[k] == oldDomain || domains[k] == otherDomain
    ensures var moved := seq(|domains|, k requires 0 <= k < |domains| =>
              if domains[k] == otherDomain then otherDomain else newDomain);
            BuiltFrom(Renamed(members, newDomain, otherDomain), key, namespace, numbers, moved)
    ensures DistinctHosts(Renamed(members, newDomain, otherDomain))
    ensures Renamed(Renamed(members, newDomain, otherDomain), newDomain, otherDomain) == Renamed(members, newDomain, otherDomain)
  {
    var after := Renamed(members, newDomain, otherDomain);
    forall k | 0 <= k < |members|
      ensures after[k].host == HostName(key, numbers[k], namespace, if domains[k] == otherDomain then otherDomain else newDomain)
      ensures RenameHost(after[k].host, newDomain, otherDomain).0 == after[k].host
    {
      if domains[k] == otherDomain || domains[k] == newDomain {
        RenameKeepsHost(key, numbers[k], namespace, domains[k], newDomain, otherDomain);
      } else {
        RenameMovesHost(key, numbers[k], namespace, oldDomain, newDomain, otherDomain);
      }
      RenameKeepsHost(key, numbers[k], namespace, newDomain, newDomain, otherDomain);
    }
    forall i, j | 0 <= i < j < |after|
      ensures after[i].host != after[j].host
    {
      if after[i].host == after[j].host {
        HostInjective(key, namespace, numbers[i], if domains[i] == otherDomain then otherDomain else newDomain,
                      numbers[j], if domains[j] == otherDomain then otherDomain else newDomain);
      }
    }
  }

  // ----- initiation

  datatype MemberOptions = MemberOptions(priority: int, arbiterOnly: bool)

  /** Config members take the server's default priority; data members are told theirs. */
  function OptionsFor(key: SetKey, size: nat, arbiterIndex: int, i: nat): MemberOptions {
    match key
    case Config => MemberOptions(1, false)
    case Shard(_) =>
      if i == arbiterIndex then MemberOptions(1, true)
      else MemberOptions(if i == size - 1 then 2 else 1, false)
  }

  function InitialMember(key: SetKey, size: nat, namespace: string, domain: string, arbiterIndex: int, i: nat): Member {
    var options := OptionsFor(key, size, arbiterIndex, i);
    Member(i, HostName(key, i, namespace, domain), options.priority, 1, options.arbiterOnly)
  }

  function Initial(key: SetKey, size: nat, namespace: string, domain: string, arbiterIndex: int): seq<Member> {
    seq(size, i requires 0 <= i => InitialMember(key, size, namespace, domain, arbiterIndex, i))
  }

  /** Who the initiated members are: numbered in order, all voting, with hosts of their own; in a shard the
      last one is preferred as primary unless it is the arbiter, and only the chosen one is an arbiter. */
  lemma InitialOptions(key: SetKey, size: nat, namespace: string, domain: string, arbiterIndex: int)
    ensures var members := Initial(key, size, namespace, domain, arbiterIndex);
            && |members| == size
            && DistinctHosts(members)
            && forall i: nat :: i < size ==>
                 && members[i].id == i && members[i].votes == 1
                 && (members[i].arbiterOnly <==> key.Shard? && i == arbiterIndex)
                 && members[i].priority == if key.Shard? && i == size - 1 && i != arbiterIndex then 2 else 1
  {
    var members := Initial(key, size, namespace, domain, arbiterIndex);
    forall i, j | 0 <= i < j < size
      ensures members[i].host != members[j].host
    {
      if members[i].host == members[j].host {
        HostInjective(key, namespace, i, domain, j, domain);
      }
    }
  }

  lemma SameHostName(service: string, index: string, namespace: string, domain: string)
    ensures (service + index + "-0") + "." + service + "." + (namespace + ".svc." + domain) + ":27017" ==
            InDomain((service + index + "-0") + "." + service + "." + namespace, domain)
  {
  }

  /** The member list of `MongoReplicaSetInit`, which prints host names in its own way: the names are
      those of the host-name builders. */
  method MongoReplicaSetInit(key: SetKey, size: int, namespace: string, domain: string, arbiterIndex: int)
    returns (members: seq<Member>)
    ensures members == Initial(key, if size < 0 then 0 else size, namespace, domain, arbiterIndex)
  {
    var nameKey := ServiceName(key);
    var fullDomain := namespace + ".svc." + domain;
    ghost var n: nat := if size < 0 then 0 else size;
    members := [];
    var i := 0;
    while i < size
      invariant 0 <= i && (i <= size || i == 0)
      invariant |members| == i
      invariant forall k: nat :: k < i ==> members[k] == InitialMember(key, n, namespace, domain, arbiterIndex, k)
    {
      var podFullName := nameKey + Dec(i) + "-0";
      var options := OptionsFor(key, size, arbiterIndex, i);
      var host := podFullName + "." + nameKey + "." + fullDomain + ":27017";
      SameHostName(nameKey, Dec(i), namespace, domain);
      members := members + [Member(i, host, options.priority, 1, options.arbiterOnly)];
      i := i + 1;
    }
  }

  // ----- adding the other site

  function NextId(members: seq<Member>): int {
    if members == [] then 0 else
      var rest := NextId(members[..|members| - 1]);
      if members[|members| - 1].id >= rest then members[|members| - 1].id + 1 else rest
  }

  /** The number given to a new member is free, and the first one past all others. */
  lemma {:induction false} NextIdIsFirstFree(members: seq<Member>)
    requires forall k :: 0 <= k < |members| ==> members[k].id >= 0
    ensures forall k :: 0 <= k < |members| ==> members[k].id < NextId(members)
    ensures if members == [] then NextId(members) == 0
            else exists k :: 0 <= k < |members| && members[k].id == NextId(members) - 1
  {
    if members != [] {
      var n := |members| - 1;
      NextIdIsFirstFree(members[..n]);
      assert forall k :: 0 <= k < n ==> members[..n][k] == members[k];
      if members[n].id < NextId(members[..n]) {
        var k :| 0 <= k < n && members[..n][k].id == NextId(members[..n]) - 1;
        assert members[k].id == NextId(members) - 1;
      }
    }
  }

  /** `rs.add` of a hidden member: the server numbers it past all others. */
  function WithHidden(members: seq<Member>, host: string): seq<Member> {
    members + [Member(NextId(members), host, 0, 0, false)]
  }

  /** Adds, hidden, the hosts that are not members yet. */
  function WithMissing(members: seq<Member>, hosts: seq<string>): seq<Member> {
    if hosts == [] then members else
      var before := WithMissing(members, hosts[..|hosts| - 1]);
      var host := hosts[|hosts| - 1];
      if HasHost(before, host) then before else WithHidden(before, host)
  }

  /** Adding keeps the members that were there, gives every asked host a place, brings in no other
      host, hides whatever it adds, and never lists a host twice. */
  lemma {:induction false} AddingIsExact(members: seq<Member>, hosts: seq<string>)
    ensures var after := WithMissing(members, hosts);
            && members <= after
            && (forall h :: HasHost(after, h) <==> HasHost(members, h) || h in hosts)
            && (forall k :: |members| <= k < |after| ==> after[k].priority == 0 && after[k].votes == 0)
            && (DistinctHosts(members) ==> DistinctHosts(after))
  {
    if hosts != [] {
      var host := hosts[|hosts| - 1];
      var before := WithMissing(members, hosts[..|hosts| - 1]);
      AddingIsExact(members, hosts[..|hosts| - 1]);
      assert hosts == hosts[..|hosts| - 1] + [host];
      var after := WithMissing(members, hosts);
      forall h
        ensures HasHost(after, h) <==> HasHost(before, h) || h == host
      {
        if k :| 0 <= k < |before| && before[k].host == h {
          assert after[k].host == h;
        }
        if !HasHost(before, host) {
          assert after[|before|].host == host;
        }
      }
      assert DistinctHosts(before) && !HasHost(before, host) ==> DistinctHosts(after) by {
        assert forall k :: 0 <= k < |before| && !HasHost(before, host) ==> before[k].host != host;
      }
    }
  }

  /** Adding twice is adding once. */
  lemma {:induction false} AddingAgain(members: seq<Member>, hosts: seq<string>)
    requires forall h :: h in hosts ==> HasHost(members, h)
    ensures WithMissing(members, hosts) == members
  {
    if hosts != [] {
      assert hosts[|hosts| - 1] in hosts;
      AddingAgain(members, hosts[..|hosts| - 1]);
    }
  }
}
