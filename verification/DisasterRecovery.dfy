/** Two sites that share the replica sets: joining them from an HA cluster, and switching which site
    votes. */
module DisasterRecovery {
  import opened Wrappers
  import opened Hosts
  import opened ReplicaSets

  datatype Mode = Active | Standby

  /** The sizes both sites are deployed with. */
  datatype Setting = Setting(namespace: string, cnf: nat, data: nat, shards: nat, sharded: bool)

  function SizeOf(setting: Setting, key: SetKey): nat {
    match key
    case Config => setting.cnf
    case Shard(_) => setting.data
  }

  const CLUSTER_LOCAL := "cluster.local"

  /** The namespaces and domains with which two sites can be joined, as `HaBecomesDr` finds them. */
  predicate CanJoin(namespace: string, ownDomain: string, otherDomain: string) {
    && DotFree(namespace) && RenameFits(namespace, ownDomain, otherDomain)
    && ownDomain != "" && ownDomain != otherDomain && otherDomain != CLUSTER_LOCAL
  }

  // ----- from HA to DR

  /** The steps of an active site's reconciliation on one replica set: rename, add the other site
      hidden, reconfigure. */
  function JoinSites(members: seq<Member>, key: SetKey, size: nat, namespace: string, ownDomain: string, otherDomain: string): seq<Member> {
    var others := HostNames(key, size, otherDomain, namespace);
    Reconfigured(WithMissing(RenameStep(members, ownDomain, otherDomain), others), others)
  }

  /** The rename step only runs for a site that names its own domain. */
  function RenameStep(members: seq<Member>, ownDomain: string, otherDomain: string): seq<Member> {
    if ownDomain == "" then members else Renamed(members, ownDomain, otherDomain)
  }

  /** The wanted configuration: this site's hosts vote, the other's are hidden. */
  function Joined(own: seq<string>, others: seq<string>): seq<Member> {
    seq(|own|, k requires 0 <= k < |own| => Member(k, own[k], 1, 1, false)) + Numbered(|own|, others)
  }

  lemma JoinedHosts(key: SetKey, size: nat, namespace: string, ownDomain: string, otherDomain: string)
    ensures HostsOf(Joined(HostNames(key, size, ownDomain, namespace), HostNames(key, size, otherDomain, namespace))) ==
            DrHostNames(key, size, ownDomain, otherDomain, namespace)
  {
  }

  lemma {:induction false} NextIdCounts(members: seq<Member>)
    requires forall k :: 0 <= k < |members| ==> members[k].id == k
    ensures NextId(members) == |members|
  {
    if members != [] {
      NextIdCounts(members[..|members| - 1]);
    }
  }

  function Numbered(base: nat, hosts: seq<string>): seq<Member> {
    seq(|hosts|, k requires 0 <= k < |hosts| => Member(base + k, hosts[k], 0, 0, false))
  }

  /** Adding hosts that are all new numbers them on from the present members. */
  lemma {:induction false} AddFresh(members: seq<Member>, hosts: seq<string>)
    requires forall k :: 0 <= k < |members| ==> members[k].id == k && members[k].host !in hosts
    requires forall i, j :: 0 <= i < j < |hosts| ==> hosts[i] != hosts[j]
    ensures WithMissing(members, hosts) == members + Numbered(|members|, hosts)
  {
    if hosts == [] {
      assert members + Numbered(|members|, hosts) == members;
    } else {
      var fewer, host := hosts[..|hosts| - 1], hosts[|hosts| - 1];
      assert forall k :: 0 <= k < |members| ==> members[k].host !in fewer;
      AddFresh(members, fewer);
      AddOne(members, fewer, host);
      assert hosts == fewer + [host];
      NumberedOneMore(members, fewer, host);
    }
  }

  lemma NumberedOneMore(members: seq<Member>, hosts: seq<string>, host: string)
    ensures var before := members + Numbered(|members|, hosts);
            members + Numbered(|members|, hosts + [host]) == before + [Member(|before|, host, 0, 0, false)]
  {
  }

  lemma AddOne(members: seq<Member>, hosts: seq<string>, host: string)
    requires forall k :: 0 <= k < |members| ==> members[k].id == k && members[k].host != host
    requires host !in hosts
    ensures var before := members + Numbered(|members|, hosts);
            !HasHost(before, host) && WithHidden(before, host) == before + [Member(|before|, host, 0, 0, false)]
  {
    NextIdCounts(members + Numbered(|members|, hosts));
  }

  lemma HostNamesDistinct(key: SetKey, size: nat, domain: string, namespace: string)
    ensures forall i, j :: 0 <= i < j < size ==>
              HostNames(key, size, domain, namespace)[i] != HostNames(key, size, domain, namespace)[j]
  {
    forall i: nat, j: nat | i < j < size
      ensures HostName(key, i, namespace, domain) != HostName(key, j, namespace, domain)
    {
      if HostName(key, i, namespace, domain) == HostName(key, j, namespace, domain) {
        HostInjective(key, namespace, i, domain, j, domain);
      }
    }
  }

  lemma SitesDiffer(key: SetKey, size: nat, namespace: string, a: string, b: string)
    requires a != b
    ensures forall h :: h in HostNames(key, size, a, namespace) ==> h !in HostNames(key, size, b, namespace)
  {
    var x, y := HostNames(key, size, a, namespace), HostNames(key, size, b, namespace);
    forall i, j | 0 <= i < size && 0 <= j < size
      ensures x[i] != y[j]
    {
      if x[i] == y[j] {
        HostInjective(key, namespace, i, a, j, b);
      }
    }
  }

  /** The member names of the DR upgrade come out right for a namespace other than svc; for svc only if
      the rename happens to skip every member. */
  predicate RenameFits(namespace: string, ownDomain: string, otherDomain: string) {
    namespace != "svc" || (ownDomain == CLUSTER_LOCAL && otherDomain == "svc." + CLUSTER_LOCAL)
  }

  lemma ClusterLocalPlain()
    ensures !Contains(CLUSTER_LOCAL, SVC) && !Contains("svc." + CLUSTER_LOCAL, SVC)
    ensures ColonFree(CLUSTER_LOCAL)
  {
    NoDottedSvc(CLUSTER_LOCAL);
    NoDottedSvc("svc." + CLUSTER_LOCAL);
  }

  lemma NoDottedSvc(s: string)
    requires s == CLUSTER_LOCAL || s == "svc." + CLUSTER_LOCAL
    ensures !Contains(s, SVC)
  {
    forall j
      ensures !OccursAt(s, SVC, j)
    {
      assert 0 <= j && j + 5 <= |s| ==> s[j..j + 5][0] == s[j] && s[j..j + 5][4] == s[j + 4];
    }
  }

  lemma RenameOfInitial(key: SetKey, namespace: string, ownDomain: string, otherDomain: string, i: nat)
    requires DotFree(namespace) && ownDomain != otherDomain
    ensures RenameHost(HostName(key, i, namespace, CLUSTER_LOCAL), ownDomain, otherDomain).0 == HostName(key, i, namespace, ownDomain) <==>
            RenameFits(namespace, ownDomain, otherDomain) && otherDomain != CLUSTER_LOCAL
  {
    ClusterLocalPlain();
    if ownDomain != CLUSTER_LOCAL && otherDomain != CLUSTER_LOCAL {
      RenameMovesHost(key, i, namespace, CLUSTER_LOCAL, ownDomain, otherDomain);
    } else {
      RenameOfBuilt(key, i, namespace, CLUSTER_LOCAL, ownDomain, otherDomain);
      LengthInDomain(Head(key, i, namespace), ownDomain);
      LengthInDomain(PodName(key, i) + "." + ServiceName(key), ownDomain);
      assert |Head(key, i, namespace)| == |PodName(key, i) + "." + ServiceName(key)| + 1 + |namespace|;
      if HostName(key, i, namespace, CLUSTER_LOCAL) == HostName(key, i, namespace, ownDomain) {
        HostInjective(key, namespace, i, CLUSTER_LOCAL, i, ownDomain);
      }
    }
  }

  /** HA to DR, end to end. From what initiation builds on cluster.local, the steps yield exactly this
      site's hosts voting with priority 1 followed by the other site's hosts hidden, numbered on,
      exactly when this site names its domain, the two domains differ, the other one is not cluster.local,
      and the rename fits. */
  lemma HaBecomesDr(key: SetKey, size: nat, namespace: string, ownDomain: string, otherDomain: string)
    requires size >= 1 && DotFree(namespace)
    ensures (JoinSites(Initial(key, size, namespace, CLUSTER_LOCAL, -1), key, size, namespace, ownDomain, otherDomain) ==
             Joined(HostNames(key, size, ownDomain, namespace), HostNames(key, size, otherDomain, namespace))) <==>
            && ownDomain != "" && ownDomain != otherDomain && otherDomain != CLUSTER_LOCAL
            && RenameFits(namespace, ownDomain, otherDomain)
  {
    var renamed := RenameStep(Initial(key, size, namespace, CLUSTER_LOCAL, -1), ownDomain, otherDomain);
    var own, others := HostNames(key, size, ownDomain, namespace), HostNames(key, size, otherDomain, namespace);
    if ownDomain == "" {
      if renamed[0].host == own[0] {
        HostInjective(key, namespace, 0, CLUSTER_LOCAL, 0, ownDomain);
      }
      NotJoined(renamed, own, others);
    } else if ownDomain == otherDomain {
      NotJoined(renamed, own, others);
    } else {
      forall i: nat | i < size
        ensures renamed[i].host == own[i] <==> RenameFits(namespace, ownDomain, otherDomain) && otherDomain != CLUSTER_LOCAL
      {
        RenameOfInitial(key, namespace, ownDomain, otherDomain, i);
      }
      if RenameFits(namespace, ownDomain, otherDomain) && otherDomain != CLUSTER_LOCAL {
        SitesDiffer(key, size, namespace, ownDomain, otherDomain);
        HostNamesDistinct(key, size, otherDomain, namespace);
        RenamedJoins(renamed, own, others);
      } else {
        NotJoined(renamed, own, others);
      }
    }
  }

  lemma NotJoined(renamed: seq<Member>, own: seq<string>, others: seq<string>)
    requires |renamed| >= 1 && |own| >= 1 && (renamed[0].host != own[0] || own[0] in others)
    ensures Reconfigured(WithMissing(renamed, others), others) != Joined(own, others)
  {
    AddingIsExact(renamed, others);
    assert WithMissing(renamed, others)[0] == renamed[0];
    assert Joined(own, others)[0] == Member(0, own[0], 1, 1, false);
  }

  /** So the members of a set of any size become the hosts of the two sites, and this site's vote. */
  lemma JoinedVoters(key: SetKey, size: nat, namespace: string, ownDomain: string, otherDomain: string)
    requires CanJoin(namespace, ownDomain, otherDomain)
    ensures var now := JoinSites(Initial(key, size, namespace, CLUSTER_LOCAL, -1), key, size, namespace, ownDomain, otherDomain);
            && HostsOf(now) == DrHostNames(key, size, ownDomain, otherDomain, namespace)
            && forall h :: Votes(now, h) <==> h in HostNames(key, size, ownDomain, namespace)
  {
    var own, others := HostNames(key, size, ownDomain, namespace), HostNames(key, size, otherDomain, namespace);
    var now := JoinSites(Initial(key, size, namespace, CLUSTER_LOCAL, -1), key, size, namespace, ownDomain, otherDomain);
    if size == 0 {
      assert now == [] && Joined(own, others) == [];
    } else {
      HaBecomesDr(key, size, namespace, ownDomain, otherDomain);
    }
    JoinedHosts(key, size, namespace, ownDomain, otherDomain);
    assert now == Joined(own, others);
    forall h
      ensures Votes(now, h) <==> h in own
    {
      if h in own {
        var k :| 0 <= k < |own| && own[k] == h;
        assert now[k].host == h && now[k].votes > 0;
      }
    }
  }

  // ----- the other site on cluster.local

  /** In namespace svc a renamed host lacks one label, so it is a built name of one other domain only. */
  lemma SvcRenamedHost(key: SetKey, i: nat, newDomain: string, j: nat, domain: string)
    requires InDomain(PodName(key, i) + "." + ServiceName(key), newDomain) == HostName(key, j, "svc", domain)
    ensures newDomain == "svc." + domain
  {
    NamesAreDotFree(key, i);
    NamesAreDotFree(key, j);
    var service := ServiceName(key);
    AfterPod(PodName(key, i), service, newDomain);
    AfterSvcPod(PodName(key, j), service, domain);
    CutAtDot(PodName(key, i), service + SVC + newDomain + PORT, PodName(key, j), service + SVC + ("svc." + domain) + PORT);
    SameMiddle(service + SVC, newDomain, PORT, "svc." + domain);
  }

  lemma AfterPod(pod: string, service: string, domain: string)
    ensures InDomain(pod + "." + service, domain) == pod + "." + (service + SVC + domain + PORT)
  {
  }

  lemma AfterSvcPod(pod: string, service: string, domain: string)
    ensures InDomain(pod + "." + service + "." + "svc", domain) == pod + "." + (service + SVC + ("svc." + domain) + PORT)
  {
    assert "." + "svc" + SVC + (domain + PORT) == SVC + ("svc." + domain) + PORT;
  }

  lemma AllHidden(members: seq<Member>, hosts: seq<string>)
    requires forall k :: 0 <= k < |members| ==> members[k].host in hosts
    ensures forall h :: !Votes(Reconfigured(WithMissing(members, hosts), hosts), h)
  {
    AddingIsExact(members, hosts);
    var grown := WithMissing(members, hosts);
    forall k | 0 <= k < |grown|
      ensures grown[k].host in hosts
    {
      assert HasHost(grown, grown[k].host);
    }
  }

  lemma OneShown(members: seq<Member>, hosts: seq<string>)
    requires |members| >= 1 && members[0].host !in hosts
    ensures Votes(Reconfigured(WithMissing(members, hosts), hosts), members[0].host)
  {
    AddingIsExact(members, hosts);
    var now := Reconfigured(WithMissing(members, hosts), hosts);
    assert WithMissing(members, hosts)[0] == members[0];
    assert now[0].host == members[0].host && now[0].votes == 1;
  }

  /** With the other site on cluster.local, where the HA cluster was initiated, the rename takes every
      own member for the other site and the reconfiguration hides them all: nobody is left to vote,
      except in namespace svc, whose members the rename spoils unless it skips them or does not run. */
  lemma NoVoterIff(key: SetKey, size: nat, namespace: string, ownDomain: string)
    requires size >= 1 && DotFree(namespace) && ownDomain != CLUSTER_LOCAL
    ensures (forall h :: !Votes(JoinSites(Initial(key, size, namespace, CLUSTER_LOCAL, -1), key, size, namespace, ownDomain, CLUSTER_LOCAL), h))
            <==> namespace != "svc" || ownDomain == "" || ownDomain == "svc." + CLUSTER_LOCAL
  {
    var start := Initial(key, size, namespace, CLUSTER_LOCAL, -1);
    var renamed := RenameStep(start, ownDomain, CLUSTER_LOCAL);
    var others := HostNames(key, size, CLUSTER_LOCAL, namespace);
    var now := JoinSites(start, key, size, namespace, ownDomain, CLUSTER_LOCAL);
    assert now == Reconfigured(WithMissing(renamed, others), others);
    forall i: nat | i < size
      ensures renamed[i].host in others <==> namespace != "svc" || ownDomain == "" || ownDomain == "svc." + CLUSTER_LOCAL
    {
      assert others[i] == start[i].host;
      TakenForOtherSite(key, size, namespace, ownDomain, i);
    }
    if namespace != "svc" || ownDomain == "" || ownDomain == "svc." + CLUSTER_LOCAL {
      AllHidden(renamed, others);
    } else {
      OneShown(renamed, others);
      assert Votes(now, renamed[0].host);
    }
  }

  lemma TakenForOtherSite(key: SetKey, size: nat, namespace: string, ownDomain: string, i: nat)
    requires DotFree(namespace) && ownDomain != CLUSTER_LOCAL && i < size
    ensures RenameHost(HostName(key, i, namespace, CLUSTER_LOCAL), ownDomain, CLUSTER_LOCAL).0 in
              HostNames(key, size, CLUSTER_LOCAL, namespace) <==>
            namespace != "svc" || ownDomain == "svc." + CLUSTER_LOCAL
  {
    var others := HostNames(key, size, CLUSTER_LOCAL, namespace);
    var host := RenameHost(HostName(key, i, namespace, CLUSTER_LOCAL), ownDomain, CLUSTER_LOCAL).0;
    ClusterLocalPlain();
    RenameOfBuilt(key, i, namespace, CLUSTER_LOCAL, ownDomain, CLUSTER_LOCAL);
    assert others[i] == HostName(key, i, namespace, CLUSTER_LOCAL);
    if namespace == "svc" && host in others {
      var j: nat :| j < size && others[j] == host;
      if ownDomain != "svc." + CLUSTER_LOCAL {
        SvcRenamedHost(key, i, ownDomain, j, CLUSTER_LOCAL);
      }
    }
  }

  lemma RenamedJoins(renamed: seq<Member>, own: seq<string>, others: seq<string>)
    requires |renamed| == |own| && (forall h :: h in own ==> h !in others)
    requires forall i, j :: 0 <= i < j < |others| ==> others[i] != others[j]
    requires forall i :: 0 <= i < |own| ==> renamed[i].id == i && renamed[i].host == own[i] && !renamed[i].arbiterOnly
    ensures Reconfigured(WithMissing(renamed, others), others) == Joined(own, others)
  {
    AddFresh(renamed, others);
    ShowOwn(renamed + Numbered(|own|, others), own, others);
  }

  lemma ShowOwn(members: seq<Member>, own: seq<string>, others: seq<string>)
    requires |members| == |own| + |others| && (forall h :: h in own ==> h !in others)
    requires forall i :: 0 <= i < |own| ==> members[i].id == i && members[i].host == own[i] && !members[i].arbiterOnly
    requires forall i :: 0 <= i < |others| ==> members[|own| + i] == Numbered(|own|, others)[i]
    ensures Reconfigured(members, others) == Joined(own, others)
  {
    forall k | 0 <= k < |members|
      ensures Reconfigured(members, others)[k] == Joined(own, others)[k]
    {
      if k < |own| {
        assert members[k].host in own;
      } else {
        assert members[k] == Numbered(|own|, others)[k - |own|];
        assert others[k - |own|] in others;
      }
    }
  }

  /** Running the steps again on the joined configuration changes nothing. */
  lemma JoinedIsStable(key: SetKey, size: nat, namespace: string, ownDomain: string, otherDomain: string)
    requires DotFree(namespace) && RenameFits(namespace, ownDomain, otherDomain)
    requires ColonFree(ownDomain) && ColonFree(otherDomain) && ownDomain != otherDomain
    ensures var joined := Joined(HostNames(key, size, ownDomain, namespace), HostNames(key, size, otherDomain, namespace));
            JoinSites(joined, key, size, namespace, ownDomain, otherDomain) == joined
  {
    var own, others := HostNames(key, size, ownDomain, namespace), HostNames(key, size, otherDomain, namespace);
    var joined := Joined(own, others);
    forall k | 0 <= k < |joined|
      ensures Renamed(joined, ownDomain, otherDomain)[k] == joined[k]
    {
      if namespace == "svc" {
        var i := if k < size then k else k - size;
        RenameSkipsJoined(key, i, ownDomain, otherDomain);
      } else if k < size {
        RenameKeepsHost(key, k, namespace, ownDomain, ownDomain, otherDomain);
      } else {
        RenameKeepsHost(key, k - size, namespace, otherDomain, ownDomain, otherDomain);
      }
    }
    assert Renamed(joined, ownDomain, otherDomain) == joined;
    forall h | h in others
      ensures HasHost(joined, h)
    {
      var k :| 0 <= k < size && others[k] == h;
      assert joined[size + k].host == h;
    }
    AddingAgain(joined, others);
    SitesDiffer(key, size, namespace, ownDomain, otherDomain);
    ShowOwn(joined, own, others);
  }

  /** In namespace svc the rename fits only if it skips the members of either site. */
  lemma RenameSkipsJoined(key: SetKey, i: nat, ownDomain: string, otherDomain: string)
    requires RenameFits("svc", ownDomain, otherDomain)
    ensures !RenameHost(HostName(key, i, "svc", ownDomain), ownDomain, otherDomain).1
    ensures !RenameHost(HostName(key, i, "svc", otherDomain), ownDomain, otherDomain).1
    ensures RenameHost(HostName(key, i, "svc", ownDomain), ownDomain, otherDomain).0 == HostName(key, i, "svc", ownDomain)
    ensures RenameHost(HostName(key, i, "svc", otherDomain), ownDomain, otherDomain).0 == HostName(key, i, "svc", otherDomain)
  {
    ClusterLocalPlain();
    SvcTwiceContains(CLUSTER_LOCAL);
    RenameOfBuilt(key, i, "svc", ownDomain, ownDomain, otherDomain);
    RenameOfBuilt(key, i, "svc", otherDomain, ownDomain, otherDomain);
  }

  lemma SvcTwiceContains(domain: string)
    ensures Contains("svc." + ("svc." + domain), SVC)
  {
    var seen := "svc." + ("svc." + domain);
    assert seen[3..8] == SVC;
    assert OccursAt(seen, SVC, 3);
  }

  // ----- reconfigurations from two sites

  /** The domain a site's reconfigure step hides: the other one when active, its own otherwise. */
  function HiddenDomain(mode: Mode, ownDomain: string, otherDomain: string): string {
    if mode == Active then otherDomain else ownDomain
  }

  /** A reconfigure command of either operator reached, or failed to change, a replica set. */
  datatype Event = Event(key: SetKey, hidden: string, effective: bool)

  type Sets = map<SetKey, seq<Member>>

  function HiddenHosts(setting: Setting, key: SetKey, domain: string): seq<string> {
    HostNames(key, SizeOf(setting, key), domain, setting.namespace)
  }

  function Step(sets: Sets, setting: Setting, e: Event): Sets {
    if e.effective && e.key in sets
    then sets[e.key := Reconfigured(sets[e.key], HiddenHosts(setting, e.key, e.hidden))]
    else sets
  }

  function Run(sets: Sets, setting: Setting, events: seq<Event>): Sets {
    if events == [] then sets else Step(Run(sets, setting, events[..|events| - 1]), setting, events[|events| - 1])
  }

  lemma {:induction false} RunKeys(sets: Sets, setting: Setting, events: seq<Event>)
    ensures Run(sets, setting, events).Keys == sets.Keys
  {
    if events != [] {
      RunKeys(sets, setting, events[..|events| - 1]);
    }
  }

  /** The domain that the last effective command for `key` hid. */
  function LastHidden(events: seq<Event>, key: SetKey): Option<string> {
    if events == [] then None
    else
      var e := events[|events| - 1];
      if e.effective && e.key == key then Some(e.hidden) else LastHidden(events[..|events| - 1], key)
  }

  /** Whatever the interleaving of the two operators, only the last effective command counts. */
  lemma {:induction false} LastCommandWins(sets: Sets, setting: Setting, events: seq<Event>, key: SetKey)
    requires key in sets
    ensures key in Run(sets, setting, events)
    ensures Run(sets, setting, events)[key] ==
            match LastHidden(events, key)
            case None => sets[key]
            case Some(domain) => Reconfigured(sets[key], HiddenHosts(setting, key, domain))
  {
    if events != [] {
      var before := events[..|events| - 1];
      LastCommandWins(sets, setting, before, key);
      var e := events[|events| - 1];
      if e.effective && e.key == key && LastHidden(before, key).Some? {
        ReconfigureForgets(sets[key], HiddenHosts(setting, key, LastHidden(before, key).value),
                           HiddenHosts(setting, key, e.hidden));
      }
    }
  }

  /** An active site and a standby site with swapped domains want the same configuration, so any
      interleaving of their commands with an effective one for the set reaches it. */
  lemma SitesConverge(sets: Sets, setting: Setting, a: string, b: string, events: seq<Event>, key: SetKey)
    requires key in sets && LastHidden(events, key).Some?
    requires forall k :: 0 <= k < |events| && events[k].key == key ==>
               || events[k].hidden == HiddenDomain(Active, a, b)
               || events[k].hidden == HiddenDomain(Standby, b, a)
    ensures key in Run(sets, setting, events)
    ensures Run(sets, setting, events)[key] == Reconfigured(sets[key], HiddenHosts(setting, key, b))
  {
    LastCommandWins(sets, setting, events, key);
    LastIsSome(events, key);
  }

  lemma {:induction false} LastIsSome(events: seq<Event>, key: SetKey)
    requires LastHidden(events, key).Some?
    ensures exists k :: 0 <= k < |events| && events[k] == Event(key, LastHidden(events, key).value, true)
  {
    var e := events[|events| - 1];
    if !(e.effective && e.key == key) {
      var before := events[..|events| - 1];
      LastIsSome(before, key);
      var k :| 0 <= k < |before| && before[k] == Event(key, LastHidden(before, key).value, true);
      assert events[k] == before[k];
    }
  }

  ghost predicate Votes(members: seq<Member>, host: string) {
    exists k :: 0 <= k < |members| && members[k].host == host && members[k].votes > 0
  }

  /** The members are the hosts of both sites. */
  ghost predicate SpansSites(members: seq<Member>, setting: Setting, key: SetKey, a: string, b: string) {
    forall h :: HasHost(members, h) <==> h in HiddenHosts(setting, key, a) || h in HiddenHosts(setting, key, b)
  }

  /** After any switchovers, failovers and failed commands, once a command took effect on a set that
      spans both sites the voters are all hosts of one site and none of the other. */
  lemma OneSiteVotes(sets: Sets, setting: Setting, a: string, b: string, events: seq<Event>, key: SetKey)
    requires key in sets && a != b && SizeOf(setting, key) >= 1 && SpansSites(sets[key], setting, key, a, b)
    requires forall k :: 0 <= k < |events| && events[k].key == key ==> events[k].hidden == a || events[k].hidden == b
    requires LastHidden(events, key).Some?
    ensures key in Run(sets, setting, events)
    ensures var voting := if LastHidden(events, key) == Some(a) then b else a;
            forall h :: Votes(Run(sets, setting, events)[key], h) <==> h in HiddenHosts(setting, key, voting)
    ensures exists h :: Votes(Run(sets, setting, events)[key], h)
  {
    LastCommandWins(sets, setting, events, key);
    LastIsSome(events, key);
    SitesDiffer(key, SizeOf(setting, key), setting.namespace, a, b);
    SitesDiffer(key, SizeOf(setting, key), setting.namespace, b, a);
    var hidden := LastHidden(events, key).value;
    var voting := if hidden == a then b else a;
    var members := sets[key];
    var now := Reconfigured(members, HiddenHosts(setting, key, hidden));
    forall h
      ensures Votes(now, h) <==> h in HiddenHosts(setting, key, voting)
    {
      if k :| 0 <= k < |members| && members[k].host == h {
        assert HasHost(members, h) && now[k].host == h;
        assert now[k].votes > 0 <==> h !in HiddenHosts(setting, key, hidden);
      }
    }
    assert HiddenHosts(setting, key, voting)[0] in HiddenHosts(setting, key, voting);
  }

  /** The commands of one complete pass of a site's reconfigure steps. */
  function Keys(setting: Setting): seq<SetKey> {
    (if setting.sharded then [Config] else []) + ShardKeys(setting)
  }

  predicate Deployed(setting: Setting, key: SetKey) {
    match key
    case Config => setting.sharded
    case Shard(s) => s < setting.shards
  }

  function ShardKeys(setting: Setting): seq<SetKey> {
    seq(setting.shards, s requires 0 <= s => Shard(s))
  }

  function Pass(keys: seq<SetKey>, hidden: string): seq<Event> {
    seq(|keys|, k requires 0 <= k < |keys| => Event(keys[k], hidden, true))
  }

  /** Replica sets may disagree while commands fail, but one complete pass of either operator puts the
      config set and all shards on the same site. */
  lemma PassAlignsAllSets(sets: Sets, setting: Setting, events: seq<Event>, hidden: string, key: SetKey)
    requires key in sets && Deployed(setting, key)
    ensures key in Run(sets, setting, events + Pass(Keys(setting), hidden))
    ensures Run(sets, setting, events + Pass(Keys(setting), hidden))[key] ==
            Reconfigured(sets[key], HiddenHosts(setting, key, hidden))
  {
    LastCommandWins(sets, setting, events + Pass(Keys(setting), hidden), key);
    assert key in Keys(setting) by {
      assert key.Shard? ==> ShardKeys(setting)[key.index] == key;
    }
    LastOfPass(events, Keys(setting), hidden, key);
  }

  lemma {:induction false} LastOfPass(events: seq<Event>, keys: seq<SetKey>, hidden: string, key: SetKey)
    requires key in keys
    ensures LastHidden(events + Pass(keys, hidden), key) == Some(hidden)
  {
    var all := events + Pass(keys, hidden);
    if keys[|keys| - 1] != key {
      var fewer := keys[..|keys| - 1];
      assert key in fewer by {
        assert keys == fewer + [keys[|keys| - 1]];
      }
      assert all[..|all| - 1] == events + Pass(fewer, hidden);
      LastOfPass(events, fewer, hidden, key);
    }
  }

  lemma RunOneMore(sets: Sets, setting: Setting, events: seq<Event>, e: Event)
    ensures Run(sets, setting, events + [e]) == Step(Run(sets, setting, events), setting, e)
  {
    assert (events + [e])[..|events + [e]| - 1] == events;
  }

  /** The events are commands for the given sets in order, all hiding `domain`. */
  ghost predicate CommandsOf(events: seq<Event>, keys: seq<SetKey>, domain: string) {
    |events| <= |keys| && forall k :: 0 <= k < |events| ==> events[k].key == keys[k] && events[k].hidden == domain
  }

  ghost predicate AllEffective(events: seq<Event>) {
    forall k :: 0 <= k < |events| ==> events[k].effective
  }

  lemma {:induction false} NoneForOthers(events: seq<Event>, keys: seq<SetKey>, domain: string, key: SetKey)
    requires CommandsOf(events, keys, domain) && key !in keys
    ensures LastHidden(events, key) == None
  {
    if events != [] {
      NoneForOthers(events[..|events| - 1], keys, domain, key);
      assert keys[|events| - 1] != key;
    }
  }

  /** A complete pass of commands reconfigures the sets it names and no others. */
  lemma PassReconfigures(sets: Sets, setting: Setting, events: seq<Event>, keys: seq<SetKey>, domain: string, key: SetKey)
    requires key in sets && CommandsOf(events, keys, domain) && AllEffective(events) && |events| == |keys|
    ensures key in Run(sets, setting, events)
    ensures Run(sets, setting, events)[key] ==
            if key in keys then Reconfigured(sets[key], HiddenHosts(setting, key, domain)) else sets[key]
  {
    LastCommandWins(sets, setting, events, key);
    if key in keys {
      assert events == [] + Pass(keys, domain);
      LastOfPass([], keys, domain, key);
    } else {
      NoneForOthers(events, keys, domain, key);
    }
  }

  /** Hosts of the other site were added to a set. */
  datatype Addition = Addition(key: SetKey, hosts: seq<string>)

  function WholeSite(setting: Setting, key: SetKey, domain: string): Addition {
    Addition(key, HiddenHosts(setting, key, domain))
  }

  function WholeSites(setting: Setting, shards: nat, domain: string): seq<Addition> {
    if shards == 0 then [] else
      WholeSites(setting, shards - 1, domain) + [WholeSite(setting, Shard(shards - 1), domain)]
  }

  /** An addition that stopped at some host of the other site, or went through. */
  predicate PartOfSite(a: Addition, setting: Setting, key: SetKey, domain: string) {
    a.key == key && a.hosts <= HiddenHosts(setting, key, domain)
  }

  function Grow(sets: Sets, a: Addition): Sets {
    if a.key in sets then sets[a.key := WithMissing(sets[a.key], a.hosts)] else sets
  }

  function GrowAll(sets: Sets, additions: seq<Addition>): Sets {
    if additions == [] then sets else Grow(GrowAll(sets, additions[..|additions| - 1]), additions[|additions| - 1])
  }

  lemma GrowOneMore(sets: Sets, additions: seq<Addition>, a: Addition)
    ensures GrowAll(sets, additions + [a]) == Grow(GrowAll(sets, additions), a)
  {
    assert (additions + [a])[..|additions + [a]| - 1] == additions;
  }

  /** Adding the other site to the first shards touches those shards only. */
  lemma {:induction false} GrownShards(sets: Sets, setting: Setting, shards: nat, domain: string, key: SetKey)
    requires key in sets
    ensures key in GrowAll(sets, WholeSites(setting, shards, domain))
    ensures GrowAll(sets, WholeSites(setting, shards, domain))[key] ==
            if key.Shard? && key.index < shards then WithMissing(sets[key], HiddenHosts(setting, key, domain)) else sets[key]
  {
    if shards > 0 {
      var fewer, last := WholeSites(setting, shards - 1, domain), WholeSite(setting, Shard(shards - 1), domain);
      GrownShards(sets, setting, shards - 1, domain, key);
      GrowOneMore(sets, fewer, last);
      assert WholeSites(setting, shards, domain) == fewer + [last];
      assert Grow(GrowAll(sets, fewer), last)[key] ==
             if key == last.key then WithMissing(GrowAll(sets, fewer)[key], last.hosts) else GrowAll(sets, fewer)[key];
    }
  }

  ghost predicate Asked(additions: seq<Addition>, key: SetKey, host: string) {
    exists i :: 0 <= i < |additions| && additions[i].key == key && host in additions[i].hosts
  }

  lemma AskedOneMore(additions: seq<Addition>, a: Addition, key: SetKey, host: string)
    ensures Asked(additions + [a], key, host) <==> Asked(additions, key, host) || (a.key == key && host in a.hosts)
  {
    var more := additions + [a];
    if i :| 0 <= i < |additions| && additions[i].key == key && host in additions[i].hosts {
      assert more[i].key == key && host in more[i].hosts;
    }
    if a.key == key && host in a.hosts {
      assert more[|additions|].key == key && host in more[|additions|].hosts;
    }
  }

  /** Whatever was added, a set keeps its members in place and gains hidden ones: hosts that some
      addition named for it. */
  lemma {:induction false} AdditionsOnlyHide(sets: Sets, additions: seq<Addition>, key: SetKey)
    requires key in sets
    ensures key in GrowAll(sets, additions) && sets[key] <= GrowAll(sets, additions)[key]
    ensures var after := GrowAll(sets, additions)[key];
            forall k :: |sets[key]| <= k < |after| ==>
              after[k].priority == 0 && after[k].votes == 0 && Asked(additions, key, after[k].host)
  {
    if additions != [] {
      var fewer, a := additions[..|additions| - 1], additions[|additions| - 1];
      AdditionsOnlyHide(sets, fewer, key);
      if a.key == key {
        var before := GrowAll(sets, fewer)[key];
        AddingIsExact(before, a.hosts);
        AddedAreNamed(before, a.hosts);
      }
      assert additions == fewer + [a];
      forall host {
        AskedOneMore(fewer, a, key, host);
      }
    }
  }

  lemma {:induction false} AddedAreNamed(members: seq<Member>, hosts: seq<string>)
    ensures var after := WithMissing(members, hosts);
            |members| <= |after| && forall k :: |members| <= k < |after| ==> after[k].host in hosts
  {
    if hosts != [] {
      AddedAreNamed(members, hosts[..|hosts| - 1]);
    }
  }

  // ----- what an active site's run can leave behind

  function RenamedSets(sets: Sets, renamed: set<SetKey>, ownDomain: string, otherDomain: string): Sets {
    map key | key in sets :: if key in renamed then Renamed(sets[key], ownDomain, otherDomain) else sets[key]
  }

  lemma RenameNone(sets: Sets, ownDomain: string, otherDomain: string)
    ensures RenamedSets(sets, {}, ownDomain, otherDomain) == sets
  {
  }

  lemma RenameOneMore(sets: Sets, renamed: set<SetKey>, key: SetKey, ownDomain: string, otherDomain: string)
    requires key in sets && key !in renamed
    ensures RenamedSets(sets, renamed + {key}, ownDomain, otherDomain) ==
            RenamedSets(sets, renamed, ownDomain, otherDomain)[key := Renamed(sets[key], ownDomain, otherDomain)]
  {
  }

  /** A set keeps its members and may have gained hidden ones among the hosts. */
  ghost predicate Grown(before: seq<Member>, after: seq<Member>, hosts: seq<string>) {
    && before <= after
    && (forall k :: |before| <= k < |after| ==> after[k].priority == 0 && after[k].votes == 0 && after[k].host in hosts)
  }

  ghost predicate Reached(start: seq<Member>, now: seq<Member>, others: seq<string>, ownDomain: string, otherDomain: string) {
    exists base: seq<Member>, grown: seq<Member> :: Grown(base, grown, others) &&
      (base == start || base == Renamed(start, ownDomain, otherDomain)) &&
      (now == grown || now == Reconfigured(grown, others))
  }

  /** If an initiated set of `size` members can be joined at all, it has become the hosts of both sites, and
      the voters are this site's. */
  ghost predicate Upgraded(before: Sets, after: Sets, key: SetKey, size: nat, namespace: string,
                           ownDomain: string, otherDomain: string) {
    && key in before && key in after
    && (CanJoin(namespace, ownDomain, otherDomain) && before[key] == Initial(key, size, namespace, "cluster.local", -1) ==>
          && HostsOf(after[key]) == DrHostNames(key, size, ownDomain, otherDomain, namespace)
          && (forall h :: Votes(after[key], h) <==> h in HostNames(key, size, ownDomain, namespace)))
  }

  /** The config set is joined with the config size, a shard with the data size. */
  lemma UpgradedSets(before: Sets, after: Sets, setting: Setting, ownDomain: string, otherDomain: string)
    requires forall key :: Deployed(setting, key) ==>
               && key in before && key in after
               && after[key] == JoinSites(before[key], key, SizeOf(setting, key), setting.namespace, ownDomain, otherDomain)
    ensures setting.sharded ==>
              Upgraded(before, after, Config, setting.cnf, setting.namespace, ownDomain, otherDomain)
    ensures forall s: nat :: s < setting.shards ==>
              Upgraded(before, after, Shard(s), setting.data, setting.namespace, ownDomain, otherDomain)
  {
    if setting.sharded {
      assert Deployed(setting, Config);
      UpgradedSet(before, after, Config, setting.cnf, setting.namespace, ownDomain, otherDomain);
    }
    forall s: nat | s < setting.shards
      ensures Upgraded(before, after, Shard(s), setting.data, setting.namespace, ownDomain, otherDomain)
    {
      assert Deployed(setting, Shard(s));
      UpgradedSet(before, after, Shard(s), setting.data, setting.namespace, ownDomain, otherDomain);
    }
  }

  lemma UpgradedSet(before: Sets, after: Sets, key: SetKey, size: nat, namespace: string, ownDomain: string, otherDomain: string)
    requires key in before && key in after
    requires after[key] == JoinSites(before[key], key, size, namespace, ownDomain, otherDomain)
    ensures Upgraded(before, after, key, size, namespace, ownDomain, otherDomain)
  {
    if CanJoin(namespace, ownDomain, otherDomain) {
      JoinedVoters(key, size, namespace, ownDomain, otherDomain);
    }
  }

  /** What a site hides or adds, written out by kind of set. */
  lemma HiddenHostsByKind(setting: Setting, s: nat, domain: string)
    ensures HiddenHosts(setting, Config, domain) == HostNames(Config, setting.cnf, domain, setting.namespace)
    ensures HiddenHosts(setting, Shard(s), domain) == HostNames(Shard(s), setting.data, domain, setting.namespace)
  {
  }

  ghost predicate FromSite(additions: seq<Addition>, setting: Setting, domain: string) {
    forall i :: 0 <= i < |additions| ==>
      Deployed(setting, additions[i].key) && PartOfSite(additions[i], setting, additions[i].key, domain)
  }

  lemma {:induction false} WholeSitesFromSite(setting: Setting, shards: nat, domain: string)
    requires shards <= setting.shards
    ensures FromSite(WholeSites(setting, shards, domain), setting, domain)
  {
    if shards > 0 {
      WholeSitesFromSite(setting, shards - 1, domain);
    }
  }

  lemma ShardAdditionsFromSite(setting: Setting, additions: seq<Addition>, domain: string)
    requires || additions == WholeSites(setting, setting.shards, domain)
             || exists i: nat, a :: i < setting.shards && PartOfSite(a, setting, Shard(i), domain) &&
                                    additions == WholeSites(setting, i, domain) + [a]
    ensures FromSite(additions, setting, domain)
  {
    if additions == WholeSites(setting, setting.shards, domain) {
      WholeSitesFromSite(setting, setting.shards, domain);
    } else {
      var i: nat, a :| i < setting.shards && PartOfSite(a, setting, Shard(i), domain) &&
                       additions == WholeSites(setting, i, domain) + [a];
      WholeSitesFromSite(setting, i, domain);
    }
  }

  ghost predicate AllGrown(before: Sets, after: Sets, setting: Setting, domain: string) {
    && before.Keys == after.Keys
    && (forall key :: key in before && !Deployed(setting, key) ==> after[key] == before[key])
    && (forall key :: key in before && Deployed(setting, key) ==> Grown(before[key], after[key], HiddenHosts(setting, key, domain)))
  }

  lemma SiteGrows(sets: Sets, setting: Setting, additions: seq<Addition>, domain: string)
    requires FromSite(additions, setting, domain)
    ensures AllGrown(sets, GrowAll(sets, additions), setting, domain)
  {
    GrowKeys(sets, additions);
    forall key | key in sets
      ensures Deployed(setting, key) ==> Grown(sets[key], GrowAll(sets, additions)[key], HiddenHosts(setting, key, domain))
      ensures !Deployed(setting, key) ==> GrowAll(sets, additions)[key] == sets[key]
    {
      SetGrows(sets, setting, additions, domain, key);
    }
  }

  lemma SetGrows(sets: Sets, setting: Setting, additions: seq<Addition>, domain: string, key: SetKey)
    requires FromSite(additions, setting, domain) && key in sets
    ensures key in GrowAll(sets, additions)
    ensures Deployed(setting, key) ==> Grown(sets[key], GrowAll(sets, additions)[key], HiddenHosts(setting, key, domain))
    ensures !Deployed(setting, key) ==> GrowAll(sets, additions)[key] == sets[key]
  {
    AdditionsOnlyHide(sets, additions, key);
    var after := GrowAll(sets, additions)[key];
    forall k | |sets[key]| <= k < |after|
      ensures Deployed(setting, key) && after[k].host in HiddenHosts(setting, key, domain)
    {
      assert Asked(additions, key, after[k].host);
      var i :| 0 <= i < |additions| && additions[i].key == key && after[k].host in additions[i].hosts;
      assert PartOfSite(additions[i], setting, key, domain);
    }
    if !Deployed(setting, key) {
      assert |after| == |sets[key]|;
    }
  }

  lemma {:induction false} GrowKeys(sets: Sets, additions: seq<Addition>)
    ensures GrowAll(sets, additions).Keys == sets.Keys
  {
    if additions != [] {
      GrowKeys(sets, additions[..|additions| - 1]);
    }
  }

  lemma GrownTwice(a: Sets, b: Sets, c: Sets, setting: Setting, domain: string)
    requires AllGrown(a, b, setting, domain) && AllGrown(b, c, setting, domain)
    ensures AllGrown(a, c, setting, domain)
  {
  }

  /** Commands of one domain leave a set as it was or reconfigured once, whichever took effect; if all
      did, the sets they name are reconfigured. */
  lemma CommandsReconfigure(sets: Sets, setting: Setting, events: seq<Event>, keys: seq<SetKey>, domain: string)
    requires CommandsOf(events, keys, domain)
    ensures Run(sets, setting, events).Keys == sets.Keys
    ensures forall key :: key in sets ==>
              || Run(sets, setting, events)[key] == sets[key]
              || (key in keys && Run(sets, setting, events)[key] == Reconfigured(sets[key], HiddenHosts(setting, key, domain)))
    ensures AllEffective(events) && |events| == |keys| ==> forall key :: key in sets && key in keys ==>
              Run(sets, setting, events)[key] == Reconfigured(sets[key], HiddenHosts(setting, key, domain))
  {
    RunKeys(sets, setting, events);
    forall key | key in sets
      ensures || Run(sets, setting, events)[key] == sets[key]
              || (key in keys && Run(sets, setting, events)[key] == Reconfigured(sets[key], HiddenHosts(setting, key, domain)))
      ensures AllEffective(events) && |events| == |keys| && key in keys ==>
                Run(sets, setting, events)[key] == Reconfigured(sets[key], HiddenHosts(setting, key, domain))
    {
      LastCommandWins(sets, setting, events, key);
      if LastHidden(events, key).Some? {
        LastIsSome(events, key);
      }
      if AllEffective(events) && |events| == |keys| {
        PassReconfigures(sets, setting, events, keys, domain, key);
      }
    }
  }

  /** Whatever fails in an active site's run from the initiated configuration, and wherever it stops, it
      never leaves voters of both sites in one set. */
  lemma VotersNeverMix(key: SetKey, size: nat, namespace: string, arbiterIndex: int, now: seq<Member>,
                       ownDomain: string, otherDomain: string, g: string, h: string)
    requires DotFree(namespace) && ownDomain != otherDomain
    requires Reached(Initial(key, size, namespace, CLUSTER_LOCAL, arbiterIndex), now,
                     HostNames(key, size, otherDomain, namespace), ownDomain, otherDomain)
    requires Votes(now, g) && Votes(now, h)
    ensures !(g in HostNames(key, size, ownDomain, namespace) && h in HostNames(key, size, otherDomain, namespace))
  {
    var start, others := Initial(key, size, namespace, CLUSTER_LOCAL, arbiterIndex), HostNames(key, size, otherDomain, namespace);
    var base: seq<Member>, grown: seq<Member> :| Grown(base, grown, others) &&
      (base == start || base == Renamed(start, ownDomain, otherDomain)) &&
      (now == grown || now == Reconfigured(grown, others));
    VoterWasThere(base, grown, now, others, g);
    VoterWasThere(base, grown, now, others, h);
    MembersNeverMix(key, size, namespace, arbiterIndex, base, ownDomain, otherDomain, g, h);
  }

  lemma MembersNeverMix(key: SetKey, size: nat, namespace: string, arbiterIndex: int, base: seq<Member>,
                        ownDomain: string, otherDomain: string, g: string, h: string)
    requires DotFree(namespace) && ownDomain != otherDomain && HasHost(base, g) && HasHost(base, h)
    requires var start := Initial(key, size, namespace, CLUSTER_LOCAL, arbiterIndex);
             base == start || base == Renamed(start, ownDomain, otherDomain)
    ensures !(g in HostNames(key, size, ownDomain, namespace) && h in HostNames(key, size, otherDomain, namespace))
  {
    var i :| 0 <= i < |base| && base[i].host == g;
    var j :| 0 <= j < |base| && base[j].host == h;
    if base == Initial(key, size, namespace, CLUSTER_LOCAL, arbiterIndex) {
      OneFamily(key, size, namespace, CLUSTER_LOCAL, i, j, ownDomain, otherDomain);
    } else {
      RenamedFamily(key, size, namespace, i, j, ownDomain, otherDomain);
    }
  }

  lemma VoterWasThere(base: seq<Member>, grown: seq<Member>, now: seq<Member>, others: seq<string>, host: string)
    requires Grown(base, grown, others) && (now == grown || now == Reconfigured(grown, others)) && Votes(now, host)
    ensures HasHost(base, host)
  {
    var k :| 0 <= k < |now| && now[k].host == host && now[k].votes > 0;
    assert grown[k].host == host;
    assert k < |base|;
    assert base[k] == grown[k];
  }

  /** Members on one domain are not of two sites. */
  lemma OneFamily(key: SetKey, size: nat, namespace: string, domain: string, i: nat, j: nat, a: string, b: string)
    requires a != b
    ensures !(HostName(key, i, namespace, domain) in HostNames(key, size, a, namespace) &&
              HostName(key, j, namespace, domain) in HostNames(key, size, b, namespace))
  {
    if HostName(key, i, namespace, domain) in HostNames(key, size, a, namespace) {
      var k: nat :| k < size && HostNames(key, size, a, namespace)[k] == HostName(key, i, namespace, domain);
      HostInjective(key, namespace, k, a, i, domain);
    }
    if HostName(key, j, namespace, domain) in HostNames(key, size, b, namespace) {
      var k: nat :| k < size && HostNames(key, size, b, namespace)[k] == HostName(key, j, namespace, domain);
      HostInjective(key, namespace, k, b, j, domain);
    }
  }

  /** Nor are renamed members, for the rename treats all members alike. */
  lemma RenamedFamily(key: SetKey, size: nat, namespace: string, i: nat, j: nat, ownDomain: string, otherDomain: string)
    requires DotFree(namespace) && ownDomain != otherDomain
    ensures !(RenameHost(HostName(key, i, namespace, CLUSTER_LOCAL), ownDomain, otherDomain).0 in HostNames(key, size, ownDomain, namespace) &&
              RenameHost(HostName(key, j, namespace, CLUSTER_LOCAL), ownDomain, otherDomain).0 in HostNames(key, size, otherDomain, namespace))
  {
    ClusterLocalPlain();
    RenameOfBuilt(key, i, namespace, CLUSTER_LOCAL, ownDomain, otherDomain);
    RenameOfBuilt(key, j, namespace, CLUSTER_LOCAL, ownDomain, otherDomain);
    OneFamily(key, size, namespace, CLUSTER_LOCAL, i, j, ownDomain, otherDomain);
    OneFamily(key, size, namespace, ownDomain, i, j, ownDomain, otherDomain);
    var host := InDomain(PodName(key, i) + "." + ServiceName(key), ownDomain);
    if namespace == "svc" && host in HostNames(key, size, ownDomain, namespace) {
      var k: nat :| k < size && HostNames(key, size, ownDomain, namespace)[k] == host;
      SvcRenamedHost(key, i, ownDomain, k, ownDomain);
      assert |ownDomain| == |"svc." + ownDomain|;
    }
  }

  // ----- any number of runs

  /** No voter is of the other site, or everyone is. */
  ghost predicate OneSided(members: seq<Member>, others: seq<string>) {
    || (forall k :: 0 <= k < |members| && members[k].votes > 0 ==> members[k].host !in others)
    || (forall k :: 0 <= k < |members| ==> members[k].host in others)
  }

  /** The part after the last colon is the port. */
  lemma CutAtLastColon(a: string, x: string, b: string, y: string)
    requires ColonFree(x) && ColonFree(y) && a + ":" + x == b + ":" + y
    ensures a == b && x == y
  {
    NoLaterColon(a, x, b, y);
    NoLaterColon(b, y, a, x);
    var h := a + ":" + x;
    assert h[..|a|] == a && h[|a| + 1..] == x;
    assert h[..|b|] == b && h[|b| + 1..] == y;
  }

  lemma NoLaterColon(a: string, x: string, b: string, y: string)
    requires ColonFree(x) && a + ":" + x == b + ":" + y
    ensures |b| <= |a|
  {
    var h := a + ":" + x;
    assert h[|b|] == ':' && forall j :: |a| < j < |h| ==> h[j] in x;
  }

  lemma {:induction false} PartsColonFree(s: string)
    ensures forall part :: part in Split(s, ":") ==> ColonFree(part)
    decreases |s|
  {
    var k := IndexOf(s, ":");
    var head := if k == -1 then s else s[..k];
    forall j | 0 <= j < |head|
      ensures head[j] != ':'
    {
      assert !OccursAt(s, ":", j);
      assert s[j..j + 1] == [s[j]];
    }
    if k != -1 {
      PartsColonFree(s[k + 1..]);
    }
  }

  /** Two strings with the same beginning have the same first separator in it. */
  lemma SameFirst(a: string, b: string, separator: string, k: nat, m: nat)
    requires |separator| > 0 && k + |separator| <= |a| && k + |separator| <= |b|
    requires a[..k + |separator|] == b[..k + |separator|] && OccursAt(a, separator, k)
    requires forall j :: 0 <= j < k ==> !OccursAt(a, separator, j)
    requires OccursAt(b, separator, m) && forall j :: 0 <= j < m ==> !OccursAt(b, separator, j)
    ensures k == m
  {
    OccursInPrefix(a, b, separator, k, k);
    if m < k {
      OccursInPrefix(a, b, separator, k, m);
    }
  }

  lemma OccursInPrefix(a: string, b: string, separator: string, k: nat, j: nat)
    requires j <= k && k + |separator| <= |a| && k + |separator| <= |b|
    requires a[..k + |separator|] == b[..k + |separator|]
    ensures OccursAt(a, separator, j) <==> OccursAt(b, separator, j)
  {
    var n := |separator|;
    assert a[j..j + n] == a[..k + n][j..j + n];
    assert b[j..j + n] == b[..k + n][j..j + n];
  }

  /** What the rename makes of a host that it moves: the same head, the new domain, and a port. */
  lemma MovedShape(host: string, newDomain: string, otherDomain: string)
    requires RenameHost(host, newDomain, otherDomain).1
    ensures 0 <= IndexOf(host, SVC) <= |host| - 5
    ensures exists port :: ColonFree(port) &&
              RenameHost(host, newDomain, otherDomain).0 == host[..IndexOf(host, SVC)] + SVC + newDomain + (":" + port)
  {
    var k := IndexOf(host, SVC);
    var parts := Split(host, SVC);
    assert parts[0] == host[..k];
    var digits := "27017";
    if IndexOf(parts[1], ":") >= 0 {
      PartsColonFree(parts[1]);
      var port := Split(parts[1], ":")[1];
      assert ColonFree(port);
    } else {
      assert PORT == ":" + digits && ColonFree(digits);
    }
  }

  /** Outside namespace svc no host at all is renamed into one of the other site's. */
  lemma NotMovedToOther(host: string, key: SetKey, j: nat, namespace: string, newDomain: string, otherDomain: string)
    requires DotFree(namespace) && namespace != "svc" && newDomain != otherDomain
    requires RenameHost(host, newDomain, otherDomain).1
    ensures RenameHost(host, newDomain, otherDomain).0 != HostName(key, j, namespace, otherDomain)
  {
    MovedShape(host, newDomain, otherDomain);
    var k, now := IndexOf(host, SVC), RenameHost(host, newDomain, otherDomain).0;
    var port :| ColonFree(port) && now == host[..k] + SVC + newDomain + (":" + port);
    if now == HostName(key, j, namespace, otherDomain) {
      var head := Head(key, j, namespace);
      NamesAreDotFree(key, j);
      NoSvcBefore(PodName(key, j), ServiceName(key), namespace, otherDomain + PORT);
      SameHead(host, now, k, head, newDomain + (":" + port), otherDomain + PORT);
      SamePorts(newDomain, port, otherDomain);
    }
  }

  /** A string rebuilt on the head of a host and equal to one with its first `.svc.` after another head:
      the heads and the tails are the same. */
  lemma SameHead(host: string, now: string, k: nat, head: string, x: string, y: string)
    requires k == IndexOf(host, SVC) && k + 5 <= |host| && now == host[..k] + SVC + x && now == head + SVC + y
    requires forall j :: 0 <= j < |head| ==> !OccursAt(head + SVC + y, SVC, j)
    ensures x == y
  {
    assert now[|head|..|head| + 5] == SVC;
    assert host[..k + 5] == host[..k] + SVC;
    assert now[..k + 5] == host[..k] + SVC;
    SameFirst(host, now, SVC, k, |head|);
    AfterHead(now, host[..k], x, head, y);
  }

  lemma AfterHead(s: string, a: string, x: string, b: string, y: string)
    requires |a| == |b| && s == b + SVC + y && (s == a + SVC + x)
    ensures x == y
  {
    assert s[|a| + 5..] == x && s[|b| + 5..] == y;
  }

  lemma SamePorts(a: string, port: string, b: string)
    requires ColonFree(port) && a + (":" + port) == b + PORT
    ensures a == b
  {
    var digits := "27017";
    assert PORT == ":" + digits;
    Reassociate(a, ":", port);
    Reassociate(b, ":", digits);
    CutAtLastColon(a, port, b, digits);
  }

  lemma RenameKeepsOneSided(members: seq<Member>, key: SetKey, size: nat, namespace: string, ownDomain: string, otherDomain: string)
    requires DotFree(namespace) && namespace != "svc" && ColonFree(otherDomain) && ownDomain != otherDomain
    requires OneSided(members, HostNames(key, size, otherDomain, namespace))
    ensures OneSided(Renamed(members, ownDomain, otherDomain), HostNames(key, size, otherDomain, namespace))
  {
    var others := HostNames(key, size, otherDomain, namespace);
    forall k | 0 <= k < |members|
      ensures RenamedMember(members[k], ownDomain, otherDomain).host in others <==> members[k].host in others
    {
      var now := RenamedMember(members[k], ownDomain, otherDomain).host;
      if members[k].host in others {
        var j: nat :| j < size && others[j] == members[k].host;
        RenameKeepsHost(key, j, namespace, otherDomain, ownDomain, otherDomain);
      } else if now in others {
        var j: nat :| j < size && others[j] == now;
        NotMovedToOther(members[k].host, key, j, namespace, ownDomain, otherDomain);
      }
    }
  }

  lemma GrowthKeepsOneSided(base: seq<Member>, grown: seq<Member>, now: seq<Member>, others: seq<string>)
    requires OneSided(base, others) && Grown(base, grown, others) && (now == grown || now == Reconfigured(grown, others))
    ensures OneSided(now, others)
  {
    assert forall k :: 0 <= k < |base| ==> grown[k] == base[k];
  }

  /** States that runs of an active site leave one after the other. */
  ghost predicate Runs(states: seq<seq<Member>>, others: seq<string>, ownDomain: string, otherDomain: string) {
    forall n :: 0 <= n < |states| - 1 ==> Reached(states[n], states[n + 1], others, ownDomain, otherDomain)
  }

  lemma {:induction false} RunsStayOneSided(states: seq<seq<Member>>, key: SetKey, size: nat, namespace: string,
                                            ownDomain: string, otherDomain: string, n: nat)
    requires DotFree(namespace) && namespace != "svc" && ColonFree(otherDomain) && ownDomain != otherDomain
    requires n < |states| && Runs(states, HostNames(key, size, otherDomain, namespace), ownDomain, otherDomain)
    requires OneSided(states[0], HostNames(key, size, otherDomain, namespace))
    ensures OneSided(states[n], HostNames(key, size, otherDomain, namespace))
  {
    if n > 0 {
      var others := HostNames(key, size, otherDomain, namespace);
      RunsStayOneSided(states, key, size, namespace, ownDomain, otherDomain, n - 1);
      var start, now := states[n - 1], states[n];
      assert Reached(start, states[n - 1 + 1], others, ownDomain, otherDomain);
      var base: seq<Member>, grown: seq<Member> :| Grown(base, grown, others) &&
        (base == start || base == Renamed(start, ownDomain, otherDomain)) &&
        (now == grown || now == Reconfigured(grown, others));
      RenameKeepsOneSided(start, key, size, namespace, ownDomain, otherDomain);
      GrowthKeepsOneSided(base, grown, now, others);
    }
  }

  /** After any number of an active site's runs from the initiated configuration, each aborted or not,
      no set has voters of both sites. */
  lemma VotersNeverMixInRuns(states: seq<seq<Member>>, key: SetKey, size: nat, namespace: string, arbiterIndex: int,
                             ownDomain: string, otherDomain: string, n: nat, g: string, h: string)
    requires DotFree(namespace) && namespace != "svc" && ColonFree(otherDomain) && ownDomain != otherDomain
    requires n < |states| && Runs(states, HostNames(key, size, otherDomain, namespace), ownDomain, otherDomain)
    requires states[0] == Initial(key, size, namespace, CLUSTER_LOCAL, arbiterIndex)
    requires Votes(states[n], g) && Votes(states[n], h)
    ensures !(g in HostNames(key, size, ownDomain, namespace) && h in HostNames(key, size, otherDomain, namespace))
  {
    var others := HostNames(key, size, otherDomain, namespace);
    forall k: nat | k < size
      ensures states[0][k].host in others <==> otherDomain == CLUSTER_LOCAL
    {
      assert others[k] == HostName(key, k, namespace, otherDomain);
      if otherDomain != CLUSTER_LOCAL {
        SitesDiffer(key, size, namespace, CLUSTER_LOCAL, otherDomain);
        assert HostNames(key, size, CLUSTER_LOCAL, namespace)[k] == states[0][k].host;
      }
    }
    RunsStayOneSided(states, key, size, namespace, ownDomain, otherDomain, n);
    SitesDiffer(key, size, namespace, ownDomain, otherDomain);
  }

  /** The methods take `reliable`: in a reliable run no pod list and no command fails. */
  class Deployment {
    /** The configurations stored in the replica sets that both sites share. */
    var sets: Sets

    constructor (sets: Sets)
      ensures this.sets == sets
    {
      this.sets := sets;
    }

    /** `ReconfigureRS`. It reports no error, whether or not the set ends up reconfigured. */
    method ReconfigureRS(key: SetKey, hidden: seq<string>, reliable: bool) returns (ghost applied: bool)
      requires key in sets
      modifies this
      ensures reliable ==> applied
      ensures sets == if applied then old(sets)[key := Reconfigured(old(sets)[key], hidden)] else old(sets)
    {
      applied := false;
      var podsListed := *;
      if !podsListed && !reliable {
        return;
      }
      var checkFailed := *;
      var needed := JsCheckReconfigNeeded(sets[key], hidden);
      if !checkFailed && !needed {
        applied := true;
        return;
      }
      var tries := 0;
      var done := false;
      while tries < 5 && !done
        invariant key in sets
        invariant sets == if applied then old(sets)[key := Reconfigured(old(sets)[key], hidden)] else old(sets)
        invariant tries == 0 ==> !done
        invariant reliable && tries > 0 ==> applied
      {
        var cfg := JsTemplate(sets[key], hidden);
        ReconfigureForgets(old(sets)[key], hidden, hidden);
        var takesEffect := *;
        if takesEffect || reliable {
          sets := sets[key := cfg];
          applied := true;
        }
        done := *;
        tries := tries + 1;
      }
    }

    /** One call of a reconfigure step: hides the hosts that `domain` has in set `key`. */
    method HideDomain(setting: Setting, key: SetKey, domain: string, reliable: bool) returns (ghost e: Event)
      requires key in sets
      modifies this
      ensures reliable ==> e.effective
      ensures e.key == key && e.hidden == domain
      ensures sets == Step(old(sets), setting, e)
      ensures e.effective ==> sets[key] == Reconfigured(old(sets)[key],
                HostNames(key, if key.Config? then setting.cnf else setting.data, domain, setting.namespace))
    {
      ghost var applied := ReconfigureRS(key, HostNames(key, SizeOf(setting, key), domain, setting.namespace), reliable);
      e := Event(key, domain, applied);
    }

    /** `ReconfigureCnfrsStep`, which a clean deployment of a standby site skips. */
    method ReconfigureCnfrs(setting: Setting, mode: Mode, ownDomain: string, otherDomain: string, cleanDeploy: bool, reliable: bool)
      returns (ghost events: seq<Event>)
      requires Config in sets
      modifies this
      ensures sets == Run(old(sets), setting, events)
      ensures |events| == if (mode == Standby && cleanDeploy) || !setting.sharded then 0 else 1
      ensures CommandsOf(events, [Config], HiddenDomain(mode, ownDomain, otherDomain))
      ensures reliable ==> AllEffective(events)
    {
      events := [];
      if !(mode == Standby && cleanDeploy) && setting.sharded {
        var domain := if mode == Active then otherDomain else ownDomain;
        ghost var e := HideDomain(setting, Config, domain, reliable);
        RunOneMore(old(sets), setting, [], e);
        events := [e];
        assert [] + [e] == events;
      }
    }

    /** `ReconfigureDataRSStep`: the same for every shard in turn. */
    method ReconfigureDataRS(setting: Setting, mode: Mode, ownDomain: string, otherDomain: string, cleanDeploy: bool, reliable: bool)
      returns (ghost events: seq<Event>)
      requires forall i: nat :: i < setting.shards ==> Shard(i) in sets
      modifies this
      ensures sets == Run(old(sets), setting, events)
      ensures |events| == if mode == Standby && cleanDeploy then 0 else setting.shards
      ensures CommandsOf(events, ShardKeys(setting), HiddenDomain(mode, ownDomain, otherDomain))
      ensures reliable ==> AllEffective(events)
    {
      events := [];
      if mode == Standby && cleanDeploy {
        return;
      }
      var domain := if mode == Active then otherDomain else ownDomain;
      for i := 0 to setting.shards
        invariant |events| == i && CommandsOf(events, ShardKeys(setting), domain)
        invariant sets == Run(old(sets), setting, events) && sets.Keys == old(sets).Keys
        invariant reliable ==> AllEffective(events)
      {
        ghost var e := HideDomain(setting, Shard(i), domain, reliable);
        RunOneMore(old(sets), setting, events, e);
        events := events + [e];
      }
    }

    /** `RenameRSMemberDomain`: without pods it does nothing and reports success. */
    method RenameRSMemberDomain(key: SetKey, newDomain: string, otherDomain: string, reliable: bool)
      returns (ok: bool, ghost applied: bool)
      requires key in sets
      modifies this
      ensures reliable ==> ok && applied
      ensures sets == if applied then old(sets)[key := Renamed(old(sets)[key], newDomain, otherDomain)] else old(sets)
    {
      var podsListed := *;
      if !podsListed && !reliable {
        return true, false;
      }
      ok := *;
      ok := ok || reliable;
      var takesEffect := *;
      applied := false;
      var cfg, changed := JsRenameMemberDomain(sets[key], newDomain, otherDomain);
      if changed && (ok || takesEffect) {
        sets := sets[key := cfg];
      }
      applied := !changed || ok || takesEffect;
    }

    /** `RenameMemberDomainStep`: the config set, then the shards, up to the first failure. */
    method RenameMemberDomain(setting: Setting, ownDomain: string, otherDomain: string, reliable: bool)
      returns (ok: bool, ghost renamed: set<SetKey>)
      requires forall key :: Deployed(setting, key) ==> key in sets
      modifies this
      ensures sets == RenamedSets(old(sets), renamed, ownDomain, otherDomain)
      ensures forall key :: key in renamed ==> Deployed(setting, key)
      ensures reliable ==> ok && forall key :: Deployed(setting, key) ==> key in renamed
    {
      renamed := {};
      RenameNone(sets, ownDomain, otherDomain);
      ghost var applied;
      if setting.sharded {
        ok, applied := RenameRSMemberDomain(Config, ownDomain, otherDomain, reliable);
        if applied {
          RenameOneMore(old(sets), renamed, Config, ownDomain, otherDomain);
          renamed := renamed + {Config};
        }
        if !ok {
          return;
        }
      }
      for i := 0 to setting.shards
        invariant sets == RenamedSets(old(sets), renamed, ownDomain, otherDomain)
        invariant forall key :: key in renamed ==> Deployed(setting, key) && (key.Config? || key.index < i)
        invariant reliable ==> forall key :: Deployed(setting, key) && (key.Config? || key.index < i) ==> key in renamed
      {
        ok, applied := RenameRSMemberDomain(Shard(i), ownDomain, otherDomain, reliable);
        if applied {
          RenameOneMore(old(sets), renamed, Shard(i), ownDomain, otherDomain);
          renamed := renamed + {Shard(i)};
        }
        if !ok {
          return;
        }
      }
      ok := true;
    }

    /** `rs.add` with retries. A host that is a member already is refused; a reply may get lost. */
    method AddHiddenReplica(key: SetKey, host: string, reliable: bool) returns (ok: bool)
      requires key in sets
      modifies this
      ensures sets == old(sets) ||
              (!HasHost(old(sets)[key], host) && sets == old(sets)[key := WithHidden(old(sets)[key], host)])
      ensures ok ==> sets != old(sets)
      ensures reliable && !HasHost(old(sets)[key], host) ==> ok
    {
      ok := false;
      var tries := 0;
      while tries < 5 && !ok
        invariant key in sets
        invariant sets == old(sets) || (HasHost(sets[key], host) &&
                    !HasHost(old(sets)[key], host) && sets == old(sets)[key := WithHidden(old(sets)[key], host)])
        invariant ok ==> sets != old(sets)
        invariant reliable && !HasHost(old(sets)[key], host) ==> if tries == 0 then sets == old(sets) else ok
      {
        var takesEffect, replyArrives := *, *;
        if (takesEffect || reliable) && !HasHost(sets[key], host) {
          ghost var before := sets[key];
          sets := sets[key := WithHidden(sets[key], host)];
          assert sets[key][|before|].host == host && sets[key] != before;
          ok := replyArrives || reliable;
        }
        tries := tries + 1;
      }
    }

    /** `AddDRReplicas`. Whatever fails, the set holds its old members and the hosts added so far; on
        success it holds all of them. */
    method AddDRReplicas(key: SetKey, hosts: seq<string>, reliable: bool) returns (ok: bool, ghost added: nat)
      requires key in sets
      modifies this
      ensures reliable ==> ok
      ensures added <= |hosts| && (ok ==> added == |hosts|)
      ensures sets == old(sets)[key := WithMissing(old(sets)[key], hosts[..added])]
    {
      ghost var start := sets[key];
      added := 0;
      for k := 0 to |hosts|
        invariant added == k && key in sets
        invariant sets == old(sets)[key := WithMissing(start, hosts[..k])]
      {
        ghost var before := sets;
        assert hosts[..k + 1][..k] == hosts[..k];
        assert WithMissing(start, hosts[..k + 1]) ==
               if HasHost(before[key], hosts[k]) then before[key] else WithHidden(before[key], hosts[k]);
        var checkFailed := *;
        if (checkFailed && !reliable) || !HasHost(sets[key], hosts[k]) {
          ok := AddHiddenReplica(key, hosts[k], reliable);
          if !ok {
            added := if sets == before then k else k + 1;
            return;
          }
        }
        added := k + 1;
      }
      assert hosts[..|hosts|] == hosts;
      ok := true;
    }

    /** One call of a step that adds the other site's hosts to set `key`. */
    method AddSite(setting: Setting, key: SetKey, domain: string, reliable: bool) returns (ok: bool, ghost a: Addition)
      requires key in sets
      modifies this
      ensures reliable ==> ok
      ensures PartOfSite(a, setting, key, domain)
      ensures ok ==> a == WholeSite(setting, key, domain)
      ensures ok ==> a.hosts == HostNames(key, if key.Config? then setting.cnf else setting.data, domain, setting.namespace)
      ensures sets == Grow(old(sets), a) && sets.Keys == old(sets).Keys
    {
      var hosts := HostNames(key, SizeOf(setting, key), domain, setting.namespace);
      ghost var added;
      ok, added := AddDRReplicas(key, hosts, reliable);
      a := Addition(key, hosts[..added]);
    }

    /** `AddDATAReplicas`: the other site's hosts, shard by shard; a failure leaves one shard with some
        of them and the later shards alone. */
    method AddDATAReplicas(setting: Setting, otherDomain: string, reliable: bool) returns (ok: bool, ghost additions: seq<Addition>)
      requires forall i: nat :: i < setting.shards ==> Shard(i) in sets
      modifies this
      ensures sets.Keys == old(sets).Keys
      ensures reliable ==> ok
      ensures sets == GrowAll(old(sets), additions)
      ensures ok ==> additions == WholeSites(setting, setting.shards, otherDomain)
      ensures !ok ==> exists i: nat, a ::
                i < setting.shards && PartOfSite(a, setting, Shard(i), otherDomain) &&
                additions == WholeSites(setting, i, otherDomain) + [a]
    {
      additions := [];
      for i := 0 to setting.shards
        invariant sets.Keys == old(sets).Keys && sets == GrowAll(old(sets), additions)
        invariant additions == WholeSites(setting, i, otherDomain)
      {
        ghost var a;
        ok, a := AddSite(setting, Shard(i), otherDomain, reliable);
        GrowOneMore(old(sets), additions, a);
        additions := additions + [a];
        if !ok {
          return;
        }
      }
      ok := true;
    }

    /** The steps of an active site that change the shared sets: rename, add the other site, reconfigure.
        On every run, error exits included, each deployed set was renamed or not, then gained hidden hosts
        of the other site, then was reconfigured or not; the other sets are as they were. A reliable run
        joins the two sites on every deployed set. */
    method ReconcileActive(setting: Setting, ownDomain: string, otherDomain: string, cleanDeploy: bool, reliable: bool)
      returns (ok: bool)
      requires forall key :: Deployed(setting, key) ==> key in sets
      modifies this
      ensures sets.Keys == old(sets).Keys
      ensures forall key :: key in sets && !Deployed(setting, key) ==> sets[key] == old(sets)[key]
      ensures forall key :: Deployed(setting, key) ==>
                Reached(old(sets)[key], sets[key], HiddenHosts(setting, key, otherDomain), ownDomain, otherDomain)
      ensures reliable ==> ok
      ensures reliable && setting.sharded ==>
                Upgraded(old(sets), sets, Config, setting.cnf, setting.namespace, ownDomain, otherDomain)
      ensures reliable ==> forall s: nat :: s < setting.shards ==>
                Upgraded(old(sets), sets, Shard(s), setting.data, setting.namespace, ownDomain, otherDomain)
      ensures reliable ==> forall key :: Deployed(setting, key) ==>
                sets[key] == JoinSites(old(sets)[key], key, SizeOf(setting, key), setting.namespace, ownDomain, otherDomain)
    {
      ok := true;
      if ownDomain != "" {
        ghost var renamed;
        ok, renamed := RenameMemberDomain(setting, ownDomain, otherDomain, reliable);
      }
      ghost var mid := sets;
      if ok {
        ok := AddOtherSite(setting, otherDomain, reliable);
      }
      ghost var grown := sets;
      if ok {
        ReconfigureAll(setting, Active, ownDomain, otherDomain, cleanDeploy, reliable);
      }
      forall key | Deployed(setting, key)
        ensures Reached(old(sets)[key], sets[key], HiddenHosts(setting, key, otherDomain), ownDomain, otherDomain)
      {
        assert Grown(mid[key], grown[key], HiddenHosts(setting, key, otherDomain));
      }
      if reliable {
        UpgradedSets(old(sets), sets, setting, ownDomain, otherDomain);
      }
    }

    /** `AddCNFReplicas`, then `AddDATAReplicas`. */
    method AddOtherSite(setting: Setting, otherDomain: string, reliable: bool) returns (ok: bool)
      requires forall key :: Deployed(setting, key) ==> key in sets
      modifies this
      ensures sets.Keys == old(sets).Keys
      ensures forall key :: key in sets && !Deployed(setting, key) ==> sets[key] == old(sets)[key]
      ensures forall key :: Deployed(setting, key) ==>
                Grown(old(sets)[key], sets[key], HiddenHosts(setting, key, otherDomain))
      ensures reliable ==> ok
      ensures ok ==> forall key :: Deployed(setting, key) ==>
                sets[key] == WithMissing(old(sets)[key], HiddenHosts(setting, key, otherDomain))
    {
      ghost var a, additions;
      ghost var first: seq<Addition> := [];
      if setting.sharded {
        ok, a := AddSite(setting, Config, otherDomain, reliable);
        first := [a];
        GrowOneMore(old(sets), [], a);
        assert [] + [a] == first;
        if !ok {
          SiteGrows(old(sets), setting, first, otherDomain);
          return;
        }
      }
      ghost var mid := sets;
      SiteGrows(old(sets), setting, first, otherDomain);
      ok, additions := AddDATAReplicas(setting, otherDomain, reliable);
      ShardAdditionsFromSite(setting, additions, otherDomain);
      SiteGrows(mid, setting, additions, otherDomain);
      GrownTwice(old(sets), mid, sets, setting, otherDomain);
      if ok {
        forall key | Deployed(setting, key)
          ensures sets[key] == WithMissing(old(sets)[key], HiddenHosts(setting, key, otherDomain))
        {
          GrownShards(mid, setting, setting.shards, otherDomain, key);
        }
      }
    }

    /** `ReconfigureCnfrsStep`, then `ReconfigureDataRSStep`. */
    method ReconfigureAll(setting: Setting, mode: Mode, ownDomain: string, otherDomain: string, cleanDeploy: bool, reliable: bool)
      requires forall key :: Deployed(setting, key) ==> key in sets
      modifies this
      ensures sets.Keys == old(sets).Keys
      ensures mode == Standby && cleanDeploy ==> sets == old(sets)
      ensures forall key :: key in sets && !Deployed(setting, key) ==> sets[key] == old(sets)[key]
      ensures forall key :: Deployed(setting, key) ==>
                || sets[key] == old(sets)[key]
                || sets[key] == Reconfigured(old(sets)[key], HiddenHosts(setting, key, HiddenDomain(mode, ownDomain, otherDomain)))
      ensures reliable && !(mode == Standby && cleanDeploy) ==> forall key :: Deployed(setting, key) ==>
                sets[key] == Reconfigured(old(sets)[key], HiddenHosts(setting, key, HiddenDomain(mode, ownDomain, otherDomain)))
    {
      ghost var domain := HiddenDomain(mode, ownDomain, otherDomain);
      ghost var keys: seq<SetKey>, first: seq<Event>, second := [], [], [];
      if setting.sharded {
        keys := [Config];
        first := ReconfigureCnfrs(setting, mode, ownDomain, otherDomain, cleanDeploy, reliable);
      }
      ghost var mid := sets;
      CommandsReconfigure(old(sets), setting, first, keys, domain);
      second := ReconfigureDataRS(setting, mode, ownDomain, otherDomain, cleanDeploy, reliable);
      CommandsReconfigure(mid, setting, second, ShardKeys(setting), domain);
      assert forall key :: key in ShardKeys(setting) <==> key.Shard? && Deployed(setting, key) by {
        forall key: SetKey | key.Shard? && Deployed(setting, key)
          ensures key in ShardKeys(setting)
        {
          assert ShardKeys(setting)[key.index] == key;
        }
      }
    }
  }
}
