/** The adapter's cache of database connections: a slice of (configuration, client) pairs, searched,
    appended to and spliced, which has to behave as a map from configurations to clients. */
module ClientCache {
  import opened Wrappers

  datatype Configuration = Configuration(user: string, password: string, host: string, authDb: string, tls: bool)

  class Client {
    var connected: bool

    constructor ()
      ensures connected
    {
      connected := true;
    }

    method Disconnect()
      modifies this
      ensures !connected
    {
      connected := false;
    }
  }

  datatype Entry = Entry(configuration: Configuration, client: Client)

  ghost predicate OnePerConfiguration(entries: seq<Entry>) {
    forall i, j :: 0 <= i < j < |entries| ==> entries[i].configuration != entries[j].configuration
  }

  function Lookup(entries: seq<Entry>, conf: Configuration): Option<Client> {
    if entries == [] then None
    else if entries[0].configuration == conf then Some(entries[0].client)
    else Lookup(entries[1..], conf)
  }

  /** The entries of the other configurations, in their order. */
  function Without(entries: seq<Entry>, conf: Configuration): seq<Entry> {
    if entries == [] then []
    else (if entries[0].configuration == conf then [] else [entries[0]]) + Without(entries[1..], conf)
  }

  lemma {:induction false} LookupAbsent(entries: seq<Entry>, conf: Configuration)
    ensures Lookup(entries, conf) == None <==> forall i :: 0 <= i < |entries| ==> entries[i].configuration != conf
  {
    if entries != [] && entries[0].configuration != conf {
      LookupAbsent(entries[1..], conf);
      assert forall i :: 1 <= i < |entries| ==> entries[i] == entries[1..][i - 1];
    }
  }

  lemma {:induction false} LookupPresent(entries: seq<Entry>, i: nat)
    requires i < |entries| && forall j :: 0 <= j < i ==> entries[j].configuration != entries[i].configuration
    ensures Lookup(entries, entries[i].configuration) == Some(entries[i].client)
  {
    if i > 0 {
      LookupPresent(entries[1..], i - 1);
    }
  }

  lemma {:induction false} WithoutAbsent(entries: seq<Entry>, conf: Configuration)
    requires forall i :: 0 <= i < |entries| ==> entries[i].configuration != conf
    ensures Without(entries, conf) == entries
  {
    if entries != [] {
      WithoutAbsent(entries[1..], conf);
    }
  }

  /** Splicing out the one entry of a configuration leaves exactly the entries of the others. */
  lemma {:induction false} SpliceIsWithout(entries: seq<Entry>, i: nat)
    requires OnePerConfiguration(entries) && i < |entries|
    ensures Without(entries, entries[i].configuration) == entries[..i] + entries[i + 1..]
  {
    if i == 0 {
      WithoutAbsent(entries[1..], entries[0].configuration);
    } else {
      SpliceIsWithout(entries[1..], i - 1);
      assert entries[1..][..i - 1] == entries[1..i] && [entries[0]] + entries[1..i] == entries[..i];
      assert entries[1..][i - 1 + 1..] == entries[i + 1..];
    }
  }

  ghost predicate OnePerClient(entries: seq<Entry>) {
    forall i, j :: 0 <= i < j < |entries| ==> entries[i].client != entries[j].client
  }

  /** The splice keeps the rest, in order, and with it what holds of every two entries. */
  lemma SpliceKeepsRest(entries: seq<Entry>, i: nat)
    requires i < |entries| && OnePerConfiguration(entries) && OnePerClient(entries)
    ensures var rest := entries[..i] + entries[i + 1..];
            && (forall k :: 0 <= k < |rest| ==>
                  rest[k] == entries[if k < i then k else k + 1] && rest[k].configuration != entries[i].configuration)
            && OnePerConfiguration(rest) && OnePerClient(rest)
  {
    var rest := entries[..i] + entries[i + 1..];
    assert forall k :: 0 <= k < |rest| ==> rest[k] == entries[if k < i then k else k + 1];
  }

  class Cache {
    var clients: seq<Entry>

    /** One entry per configuration, one configuration per client, and only connected clients. */
    ghost predicate Valid()
      reads this, set e | e in clients :: e.client
    {
      && OnePerConfiguration(clients) && OnePerClient(clients)
      && (forall i :: 0 <= i < |clients| ==> clients[i].client.connected)
    }

    constructor ()
      ensures Valid() && clients == []
    {
      clients := [];
    }

    /** Either connects a new client or fails. */
    method CreateMongoClient(conf: Configuration) returns (r: Result<Client>)
      ensures r.Success? ==> fresh(r.value) && r.value.connected
    {
      var fails := *;
      if fails {
        return Failure;
      }
      var client := new Client();
      r := Success(client);
    }

    method GetMongoClient(conf: Configuration) returns (r: Result<Client>)
      requires Valid()
      modifies this
      ensures Valid()
      ensures old(Lookup(clients, conf)).Some? ==> r == Success(old(Lookup(clients, conf)).value) && clients == old(clients)
      ensures old(Lookup(clients, conf)).None? && r.Success? ==>
                fresh(r.value) && clients == old(clients) + [Entry(conf, r.value)]
      ensures r.Failure? ==> clients == old(clients)
      ensures clients == Apply(old(clients), Get(conf, if r.Success? then Some(r.value) else None))
      ensures r.Success? ==> r.value.connected && Lookup(clients, conf) == Some(r.value)
    {
      for i := 0 to |clients|
        invariant clients == old(clients)
        invariant forall j :: 0 <= j < i ==> clients[j].configuration != conf
      {
        if clients[i].configuration == conf {
          LookupPresent(clients, i);
          return Success(clients[i].client);
        }
      }
      LookupAbsent(clients, conf);
      r := CreateMongoClient(conf);
      if r.Success? {
        clients := clients + [Entry(conf, r.value)];
        LookupPresent(clients, |clients| - 1);
      }
    }

    method DisconnectMongoClient(conf: Configuration)
      requires Valid()
      modifies this, set e | e in clients :: e.client
      ensures Valid() && clients == Apply(old(clients), Disconnect(conf))
      ensures forall k :: 0 <= k < |old(clients)| ==>
                (old(clients)[k].client.connected <==> old(clients)[k].configuration != conf)
    {
      var index := -1;
      for i := 0 to |clients|
        invariant clients == old(clients)
        invariant -1 <= index < i
        invariant index == -1 ==> forall j :: 0 <= j < i ==> clients[j].configuration != conf
        invariant index >= 0 ==> clients[index].configuration == conf
        invariant forall j :: 0 <= j < |clients| ==>
                    (clients[j].client.connected <==> !(j < i && clients[j].configuration == conf))
      {
        if clients[i].configuration == conf {
          clients[i].client.Disconnect();
          index := i;
        }
      }
      if index != -1 {
        SpliceIsWithout(clients, index);
        SpliceKeepsRest(clients, index);
        clients := clients[..index] + clients[index + 1..];
      } else {
        WithoutAbsent(clients, conf);
      }
    }
  }

  // ----- sequences of calls

  /** A call; a get carries the client that would be created for it, or none when creation fails. */
  datatype Call = Get(configuration: Configuration, created: Option<Client>) | Disconnect(configuration: Configuration)

  function Apply(entries: seq<Entry>, call: Call): seq<Entry> {
    match call
    case Get(conf, Some(client)) => if Lookup(entries, conf).None? then entries + [Entry(conf, client)] else entries
    case Get(_, None) => entries
    case Disconnect(conf) => Without(entries, conf)
  }

  function Run(calls: seq<Call>): seq<Entry> {
    if calls == [] then [] else Apply(Run(calls[..|calls| - 1]), calls[|calls| - 1])
  }

  /** The same calls on a map. */
  function MapRun(calls: seq<Call>): map<Configuration, Client> {
    if calls == [] then map[] else
      var before := MapRun(calls[..|calls| - 1]);
      match calls[|calls| - 1]
      case Get(conf, Some(client)) => if conf in before then before else before[conf := client]
      case Get(_, None) => before
      case Disconnect(conf) => before - {conf}
  }

  lemma {:induction false} WithoutMembers(entries: seq<Entry>, conf: Configuration, e: Entry)
    ensures e in Without(entries, conf) <==> e in entries && e.configuration != conf
  {
    if entries != [] {
      WithoutMembers(entries[1..], conf, e);
    }
  }

  lemma {:induction false} LookupWithout(entries: seq<Entry>, conf: Configuration, c: Configuration)
    ensures Lookup(Without(entries, conf), c) == if c == conf then None else Lookup(entries, c)
  {
    if entries != [] {
      LookupWithout(entries[1..], conf, c);
      var rest := Without(entries[1..], conf);
      assert [] + rest == rest && ([entries[0]] + rest)[1..] == rest;
    }
  }

  lemma {:induction false} WithoutKeepsDistinct(entries: seq<Entry>, conf: Configuration)
    requires OnePerConfiguration(entries)
    ensures OnePerConfiguration(Without(entries, conf))
  {
    if entries != [] {
      WithoutKeepsDistinct(entries[1..], conf);
      var rest := Without(entries[1..], conf);
      forall i | 0 <= i < |rest|
        ensures rest[i].configuration != entries[0].configuration
      {
        assert rest[i] in rest;
        WithoutMembers(entries[1..], conf, rest[i]);
      }
    }
  }

  lemma {:induction false} LookupAppended(entries: seq<Entry>, e: Entry, conf: Configuration)
    ensures Lookup(entries + [e], conf) ==
            if Lookup(entries, conf).None? && e.configuration == conf then Some(e.client) else Lookup(entries, conf)
  {
    if entries != [] {
      assert (entries + [e])[1..] == entries[1..] + [e];
      LookupAppended(entries[1..], e, conf);
    }
  }

  /** The slice refines the map: after any sequence of gets and disconnects there is at most one entry
      per configuration, and a search finds what the map holds. */
  lemma {:induction false} RefinesMap(calls: seq<Call>)
    ensures OnePerConfiguration(Run(calls))
    ensures forall c :: Lookup(Run(calls), c) == if c in MapRun(calls) then Some(MapRun(calls)[c]) else None
  {
    if calls != [] {
      var call := calls[|calls| - 1];
      RefinesMap(calls[..|calls| - 1]);
      var before := Run(calls[..|calls| - 1]);
      match call {
        case Get(conf, Some(client)) =>
          LookupAbsent(before, conf);
          forall c {
            LookupAppended(before, Entry(conf, client), c);
          }
        case Get(_, None) =>
        case Disconnect(conf) =>
          WithoutKeepsDistinct(before, conf);
          forall c {
            LookupWithout(before, conf, c);
          }
      }
    }
  }

  /** A configuration keeps its client through any calls that do not disconnect it, whatever else they
      create or disconnect. */
  lemma {:induction false} SameUntilDisconnected(calls: seq<Call>, more: seq<Call>, conf: Configuration)
    requires Lookup(Run(calls), conf).Some? && Disconnect(conf) !in more
    ensures Lookup(Run(calls + more), conf) == Lookup(Run(calls), conf)
  {
    if more == [] {
      assert calls + more == calls;
    } else {
      var front, last := more[..|more| - 1], more[|more| - 1];
      assert (calls + more)[..|calls + more| - 1] == calls + front;
      SameUntilDisconnected(calls, front, conf);
      RefinesMap(calls + front);
      RefinesMap(calls + more);
    }
  }

  /** The call at `k` created the client for a configuration that had none, and no call after it
      disconnected the configuration. */
  ghost predicate CreatedAndKept(calls: seq<Call>, conf: Configuration, client: Client, k: nat) {
    && k < |calls| && calls[k] == Get(conf, Some(client))
    && Lookup(Run(calls[..k]), conf).None? && Disconnect(conf) !in calls[k + 1..]
  }

  lemma CreatedAndKeptBefore(calls: seq<Call>, conf: Configuration, client: Client, k: nat)
    requires k + 1 < |calls|
    ensures CreatedAndKept(calls, conf, client, k) <==>
            CreatedAndKept(calls[..|calls| - 1], conf, client, k) && calls[|calls| - 1] != Disconnect(conf)
  {
    var front, last := calls[..|calls| - 1], calls[|calls| - 1];
    assert front[..k] == calls[..k] && calls[k + 1..] == front[k + 1..] + [last];
  }

  /** What a get answers from the cache, in terms of the history alone: the client of the get that
      created it when the configuration had none, with no disconnect since. */
  lemma {:induction false} ServedIff(calls: seq<Call>, conf: Configuration, client: Client)
    ensures Lookup(Run(calls), conf) == Some(client) <==> exists k :: CreatedAndKept(calls, conf, client, k)
  {
    if calls != [] {
      var n := |calls| - 1;
      ServedIff(calls[..n], conf, client);
      RefinesMap(calls[..n]);
      RefinesMap(calls);
      forall k: nat | k < n {
        CreatedAndKeptBefore(calls, conf, client, k);
      }
      assert calls[n + 1..] == [];
      assert CreatedAndKept(calls, conf, client, n) <==>
             calls[n] == Get(conf, Some(client)) && Lookup(Run(calls[..n]), conf).None?;
      if k :| CreatedAndKept(calls[..n], conf, client, k) {
        assert CreatedAndKept(calls, conf, client, k) <==> calls[n] != Disconnect(conf);
      }
    }
  }
}
