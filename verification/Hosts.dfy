/** Host names of replica-set members, and the JavaScript that moves a member to another domain. */
module Hosts {
  import opened Decimal
  import Names

  /** The config set, or a data shard by its zero-based index. */
  datatype SetKey = Config | Shard(index: nat)

  function ServiceName(key: SetKey): string {
    match key
    case Config => "cnfrs"
    case Shard(s) => "datars" + Dec(s + 1)
  }

  function PodName(key: SetKey, i: nat): string {
    ServiceName(key) + Dec(i) + "-0"
  }

  const SVC := ".svc."
  const PORT := ":27017"

  /** Everything of a host name before its ".svc.". */
  function Head(key: SetKey, i: nat, namespace: string): string {
    PodName(key, i) + "." + ServiceName(key) + "." + namespace
  }

  function InDomain(head: string, domain: string): string {
    head + SVC + (domain + PORT)
  }

  /** What `GetCNFReplicaSetHostNames` and `GetDATAReplicaSetHostName` print for member `i`. */
  function HostName(key: SetKey, i: nat, namespace: string, domain: string): string {
    InDomain(Head(key, i, namespace), domain)
  }

  function HostNames(key: SetKey, size: nat, domain: string, namespace: string): seq<string> {
    seq(size, i requires 0 <= i => HostName(key, i, namespace, domain))
  }

  function DrHostNames(key: SetKey, size: nat, main: string, dr: string, namespace: string): seq<string> {
    HostNames(key, size, main, namespace) + HostNames(key, size, dr, namespace)
  }

  /** The pod of a member is that of the StatefulSet the create steps name for it, whose shards count
      from one. */
  lemma PodsOfStatefulSets(s: nat, i: nat)
    ensures PodName(Config, i) == Names.CnfName(i) + "-0"
    ensures PodName(Shard(s), i) == Names.DataName(s + 1, i) + "-0"
  {
    assert "datars" + Dec(s + 1) + Dec(i) == Names.DataName(s + 1, i);
  }

  /** The names spelled out. */
  lemma HostNamesSpelled(s: nat, i: nat, namespace: string, domain: string)
    ensures HostName(Config, i, namespace, domain) ==
            "cnfrs" + Dec(i) + "-0" + ".cnfrs." + namespace + ".svc." + domain + ":27017"
    ensures HostName(Shard(s), i, namespace, domain) ==
            "datars" + Dec(s + 1) + Dec(i) + "-0" + ".datars" + Dec(s + 1) + "." + namespace + ".svc." + domain + ":27017"
  {
    CnfSpelled(i, namespace, domain);
    DataSpelled(Dec(s + 1), Dec(i), namespace, domain);
  }

  lemma CnfSpelled(i: nat, namespace: string, domain: string)
    ensures HostName(Config, i, namespace, domain) ==
            "cnfrs" + Dec(i) + "-0" + ".cnfrs." + namespace + ".svc." + domain + ":27017"
  {
    assert ".cnfrs." == "." + "cnfrs" + ".";
  }

  lemma DataSpelled(shard: string, member: string, namespace: string, domain: string)
    ensures InDomain("datars" + shard + member + "-0" + "." + ("datars" + shard) + "." + namespace, domain) ==
            "datars" + shard + member + "-0" + ".datars" + shard + "." + namespace + ".svc." + domain + ":27017"
  {
    assert "." + ("datars" + shard) == ".datars" + shard;
  }

  // ----- JavaScript strings

  predicate OccursAt(s: string, pattern: string, k: int) {
    0 <= k && k + |pattern| <= |s| && s[k..k + |pattern|] == pattern
  }

  ghost predicate Contains(s: string, pattern: string) {
    exists k :: OccursAt(s, pattern, k)
  }

  function FindFrom(s: string, pattern: string, k: nat): (r: int)
    requires |pattern| > 0
    ensures r == -1 ==> forall j :: k <= j ==> !OccursAt(s, pattern, j)
    ensures r != -1 ==> k <= r && OccursAt(s, pattern, r) && forall j :: k <= j < r ==> !OccursAt(s, pattern, j)
    decreases |s| - k
  {
    if k + |pattern| > |s| then -1
    else if OccursAt(s, pattern, k) then k
    else FindFrom(s, pattern, k + 1)
  }

  function IndexOf(s: string, pattern: string): (r: int)
    requires |pattern| > 0
  {
    FindFrom(s, pattern, 0)
  }

  function Split(s: string, separator: string): (parts: seq<string>)
    requires |separator| > 0
    ensures |parts| >= 1
    decreases |s|
  {
    var k := IndexOf(s, separator);
    if k == -1 then [s] else [s[..k]] + Split(s[k + |separator|..], separator)
  }

  /** `JsRenameMemberDomain` on one host: its new value, and whether it was rewritten. */
  function RenameHost(host: string, newDomain: string, otherDomain: string): (string, bool) {
    var parts := Split(host, SVC);
    if |parts| != 2 then (host, false) else
      var current := Split(parts[1], ":")[0];
      if current == newDomain || current == otherDomain then (host, false) else
        var port := if IndexOf(parts[1], ":") >= 0 then ":" + Split(parts[1], ":")[1] else PORT;
        (parts[0] + SVC + newDomain + port, true)
  }

  // ----- splitting the built names

  lemma SplitAtFirst(a: string, separator: string, b: string)
    requires |separator| > 0
    requires forall j :: 0 <= j < |a| ==> !OccursAt(a + separator + b, separator, j)
    ensures Split(a + separator + b, separator) == [a] + Split(b, separator)
  {
    var s := a + separator + b;
    assert OccursAt(s, separator, |a|);
    assert IndexOf(s, separator) == |a|;
    assert s[..|a|] == a && s[|a| + |separator|..] == b;
  }

  predicate DotFree(s: string) {
    '.' !in s
  }

  predicate ColonFree(s: string) {
    ':' !in s
  }

  lemma NamesAreDotFree(key: SetKey, i: nat)
    ensures DotFree(ServiceName(key)) && DotFree(PodName(key, i)) && |ServiceName(key)| >= 5
  {
  }

  /** In `x.y` with dot-free `x` and `y`, followed by a dot, a dotted label of length three can only
      start at the dot after `x` and then is `y`. */
  lemma LabelAt(x: string, y: string, rest: string, j: int)
    requires DotFree(x) && DotFree(y)
    requires 0 <= j <= |x| + |y| && OccursAt(x + "." + y + "." + rest, SVC, j)
    ensures j == |x| && y == "svc"
  {
    var s := x + "." + y + "." + rest;
    assert s[j..j + 5][0] == '.' && s[j..j + 5][4] == '.';
    assert s[j] == '.' && s[j + 4] == '.';
    assert s[j..j + 5][1] == 's' && s[j..j + 5][2] == 'v' && s[j..j + 5][3] == 'c';
    assert s[j + 1] == 's' && s[j + 2] == 'v' && s[j + 3] == 'c';
    assert s[|x| + 1 + |y|] == '.';
    assert forall k :: 0 <= k < |y| ==> s[|x| + 1 + k] == y[k];
  }

  lemma OccursShift(a: string, s: string, pattern: string, j: int)
    requires |a| <= j
    ensures OccursAt(a + s, pattern, j) <==> OccursAt(s, pattern, j - |a|)
  {
    if j + |pattern| <= |a| + |s| {
      assert (a + s)[j..j + |pattern|] == s[j - |a|..j - |a| + |pattern|];
    }
  }

  /** A pod and service name hold no ".svc." of their own. */
  lemma NoEarlySvc(pod: string, service: string, rest: string)
    requires DotFree(pod) && DotFree(service) && |service| >= 5
    ensures forall j :: 0 <= j <= |pod| + |service| ==> !OccursAt(pod + "." + service + "." + rest, SVC, j)
  {
    forall j | 0 <= j <= |pod| + |service|
      ensures !OccursAt(pod + "." + service + "." + rest, SVC, j)
    {
      if OccursAt(pod + "." + service + "." + rest, SVC, j) {
        LabelAt(pod, service, rest, j);
      }
    }
  }

  /** Nor does a dot-free namespace other than svc. */
  lemma NoSvcBefore(pod: string, service: string, namespace: string, tail: string)
    requires DotFree(pod) && DotFree(service) && |service| >= 5 && DotFree(namespace) && namespace != "svc"
    ensures var p := pod + "." + service + "." + namespace;
            forall j :: 0 <= j < |p| ==> !OccursAt(p + SVC + tail, SVC, j)
  {
    var head, rest := pod + ".", namespace + "." + ("svc." + tail);
    var p := pod + "." + service + "." + namespace;
    var s := p + SVC + tail;
    assert s == pod + "." + service + "." + rest;
    assert s == head + (service + "." + rest);
    assert service + "." + rest == service + "." + namespace + "." + ("svc." + tail);
    NoEarlySvc(pod, service, rest);
    forall j | |pod| + |service| < j < |p|
      ensures !OccursAt(s, SVC, j)
    {
      OccursShift(head, service + "." + rest, SVC, j);
      if OccursAt(s, SVC, j) {
        LabelAt(service, namespace, "svc." + tail, j - |head|);
      }
    }
  }

  /** The first ".svc." of a built name is the one after the namespace, unless the namespace is svc. */
  lemma SplitHost(pod: string, service: string, namespace: string, tail: string)
    requires DotFree(pod) && DotFree(service) && |service| >= 5 && DotFree(namespace) && namespace != "svc"
    ensures var p := pod + "." + service + "." + namespace;
            Split(p + SVC + tail, SVC) == [p] + Split(tail, SVC)
  {
    NoSvcBefore(pod, service, namespace, tail);
    SplitAtFirst(pod + "." + service + "." + namespace, SVC, tail);
  }

  lemma SplitSvcHost(pod: string, service: string, tail: string)
    requires DotFree(pod) && DotFree(service) && |service| >= 5
    ensures var q := pod + "." + service;
            Split(q + "." + "svc" + SVC + tail, SVC) == [q] + Split("svc." + tail, SVC)
  {
    var q := pod + "." + service;
    SvcTwice(q, tail);
    NoEarlySvc(pod, service, "svc." + ("svc." + tail));
    SplitAtFirst(q, SVC, "svc." + tail);
  }

  lemma SvcTwice(q: string, tail: string)
    ensures q + "." + "svc" + SVC + tail == q + SVC + ("svc." + tail)
    ensures q + "." + ("svc." + ("svc." + tail)) == q + SVC + ("svc." + tail)
  {
  }

  /** The port after a domain neither hides nor adds a ".svc.". */
  lemma SplitDomain(domain: string)
    ensures |Split(domain + PORT, SVC)| == 1 <==> !Contains(domain, SVC)
    ensures |Split(domain + PORT, SVC)| == 1 ==> Split(domain + PORT, SVC) == [domain + PORT]
  {
    var s := domain + PORT;
    forall k
      ensures OccursAt(s, SVC, k) <==> OccursAt(domain, SVC, k)
    {
      if 0 <= k && k + 5 <= |domain| {
        assert s[k..k + 5] == domain[k..k + 5];
      } else if 0 <= k && k + 5 <= |s| {
        assert s[k..k + 5][4] == s[k + 4] == PORT[k + 4 - |domain|];
      }
    }
    var k := IndexOf(s, SVC);
    if k != -1 {
      assert Contains(domain, SVC);
      assert |Split(s[k + 5..], SVC)| >= 1;
    }
  }

  lemma NoColonIn(s: string)
    requires ColonFree(s)
    ensures forall j :: !OccursAt(s, ":", j)
  {
    forall j | 0 <= j < |s|
      ensures !OccursAt(s, ":", j)
    {
      assert s[j..j + 1][0] == s[j];
    }
  }

  lemma SplitAtColon(a: string, b: string)
    requires ColonFree(a) && ColonFree(b)
    ensures IndexOf(a + ":" + b, ":") == |a|
    ensures Split(a + ":" + b, ":") == [a, b]
  {
    var s := a + ":" + b;
    forall j | 0 <= j < |a|
      ensures !OccursAt(s, ":", j)
    {
      assert s[j..j + 1][0] == a[j];
    }
    assert s[|a|..|a| + 1] == ":";
    assert OccursAt(s, ":", |a|);
    SplitAtFirst(a, ":", b);
    NoColonIn(b);
    assert Split(b, ":") == [b];
  }

  lemma SplitPort(domain: string, digits: string)
    requires ColonFree(domain) && ColonFree(digits)
    ensures IndexOf(domain + (":" + digits), ":") == |domain|
    ensures Split(domain + (":" + digits), ":") == [domain, digits]
  {
    Reassociate(domain, ":", digits);
    SplitAtColon(domain, digits);
  }

  /** What the rename does to any built name with a dot-free namespace and a domain without a port. */
  lemma RenameOfBuilt(key: SetKey, i: nat, namespace: string, domain: string, newDomain: string, otherDomain: string)
    requires DotFree(namespace) && ColonFree(domain)
    ensures var svc := namespace == "svc";
            var seen := if svc then "svc." + domain else domain;
            RenameHost(HostName(key, i, namespace, domain), newDomain, otherDomain) ==
            if Contains(seen, SVC) || seen == newDomain || seen == otherDomain
            then (HostName(key, i, namespace, domain), false)
            else (InDomain(if svc then PodName(key, i) + "." + ServiceName(key) else Head(key, i, namespace), newDomain), true)
  {
    var q := PodName(key, i) + "." + ServiceName(key);
    var host := HostName(key, i, namespace, domain);
    NamesAreDotFree(key, i);
    if namespace == "svc" {
      SplitSvcHost(PodName(key, i), ServiceName(key), domain + PORT);
      Reassociate("svc.", domain, PORT);
      RenameOfSplit(host, q, "svc." + domain, newDomain, otherDomain);
    } else {
      SplitHost(PodName(key, i), ServiceName(key), namespace, domain + PORT);
      RenameOfSplit(host, Head(key, i, namespace), domain, newDomain, otherDomain);
    }
  }

  lemma Reassociate(a: string, b: string, c: string)
    ensures a + (b + c) == (a + b) + c
  {
  }

  lemma RenameOfSplit(host: string, head: string, seen: string, newDomain: string, otherDomain: string)
    requires ColonFree(seen) && Split(host, SVC) == [head] + Split(seen + PORT, SVC)
    ensures RenameHost(host, newDomain, otherDomain) ==
            if Contains(seen, SVC) || seen == newDomain || seen == otherDomain then (host, false)
            else (InDomain(head, newDomain), true)
  {
    SplitDomain(seen);
    var digits := "27017";
    assert ":" + digits == PORT;
    SplitPort(seen, digits);
    var tail := Split(seen + PORT, SVC);
    assert |Split(host, SVC)| == 1 + |tail|;
    Reassociate(head + SVC, newDomain, PORT);
    if |tail| == 1 {
      assert Split(host, SVC)[1] == seen + PORT;
    }
  }

  lemma CutAtDot(a: string, x: string, b: string, y: string)
    requires DotFree(a) && DotFree(b) && a + "." + x == b + "." + y
    ensures a == b && x == y
  {
    var h := a + "." + x;
    assert h[|a|] == '.' && h[|b|] == '.';
    assert h[..|a|] == a && h[..|b|] == b && h[|a| + 1..] == x && h[|b| + 1..] == y;
  }

  lemma SameMiddle(head: string, x: string, tail: string, y: string)
    requires head + x + tail == head + y + tail
    ensures x == y
  {
    var h := head + x + tail;
    assert h[|head|..|h| - |tail|] == x && h[|head|..|h| - |tail|] == y;
  }

  lemma PodsDetermined(pod: string, pod': string, service: string, namespace: string, d: string, e: string)
    requires DotFree(pod) && DotFree(pod')
    requires InDomain(pod + "." + service + "." + namespace, d) == InDomain(pod' + "." + service + "." + namespace, e)
    ensures pod == pod' && d == e
  {
    var middle := service + "." + namespace + SVC;
    assert InDomain(pod + "." + service + "." + namespace, d) == pod + "." + (middle + d + PORT);
    assert InDomain(pod' + "." + service + "." + namespace, e) == pod' + "." + (middle + e + PORT);
    CutAtDot(pod, middle + d + PORT, pod', middle + e + PORT);
    SameMiddle(middle, d, PORT, e);
  }

  /** In one replica set and namespace a host name determines the member and its domain. */
  lemma HostInjective(key: SetKey, namespace: string, i: nat, d: string, j: nat, e: string)
    requires HostName(key, i, namespace, d) == HostName(key, j, namespace, e)
    ensures i == j && d == e
  {
    NamesAreDotFree(key, i);
    NamesAreDotFree(key, j);
    PodsDetermined(PodName(key, i), PodName(key, j), ServiceName(key), namespace, d, e);
    SameMiddle(ServiceName(key), Dec(i), "-0", Dec(j));
    Injective(i, j);
  }

  lemma LengthInDomain(head: string, domain: string)
    ensures |InDomain(head, domain)| == |head| + |domain| + 11
  {
  }

  /** Rename is right on built names. A member on a foreign domain ends up as the same member on the
      new domain exactly when the namespace is not svc and the old domain has no label svc inside. */
  lemma RenameMovesHost(key: SetKey, i: nat, namespace: string, oldDomain: string, newDomain: string, otherDomain: string)
    requires DotFree(namespace) && ColonFree(oldDomain) && oldDomain != newDomain && oldDomain != otherDomain
    ensures RenameHost(HostName(key, i, namespace, oldDomain), newDomain, otherDomain).0 == HostName(key, i, namespace, newDomain)
            <==> namespace != "svc" && !Contains(oldDomain, SVC)
  {
    RenameOfBuilt(key, i, namespace, oldDomain, newDomain, otherDomain);
    if HostName(key, i, namespace, oldDomain) == HostName(key, i, namespace, newDomain) {
      HostInjective(key, namespace, i, oldDomain, i, newDomain);
    }
    LengthInDomain(Head(key, i, namespace), newDomain);
    LengthInDomain(PodName(key, i) + "." + ServiceName(key), newDomain);
    assert |Head(key, i, namespace)| == |PodName(key, i) + "." + ServiceName(key)| + 1 + |namespace|;
  }

  /** Members already on the new or the other domain stay as they are. */
  lemma RenameKeepsHost(key: SetKey, i: nat, namespace: string, domain: string, newDomain: string, otherDomain: string)
    requires DotFree(namespace) && ColonFree(domain) && namespace != "svc"
    requires domain == newDomain || domain == otherDomain
    ensures RenameHost(HostName(key, i, namespace, domain), newDomain, otherDomain) ==
            (HostName(key, i, namespace, domain), false)
  {
    RenameOfBuilt(key, i, namespace, domain, newDomain, otherDomain);
  }
}
