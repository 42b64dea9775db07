/** StatefulSet names, and the groups of StatefulSets that the PVC expansion scales together. */
module Names {
  import opened Decimal

  /** The sizes of `schemaSettings` that name StatefulSets. They are plain Go integers. */
  datatype Schema = Schema(cnf: int, data: int, shards: int, sharded: bool)

  function CnfName(i: nat): string {
    "cnfrs" + Dec(i)
  }

  function DataName(shard: nat, i: nat): string {
    "datars" + Dec(shard) + Dec(i)
  }

  function AtLeastZero(n: int): nat {
    if n < 0 then 0 else n
  }

  function PvcCount(schema: Schema): int {
    if schema.data > schema.cnf then schema.data else schema.cnf
  }

  /** The StatefulSets that share PVC ordinal `n` according to the expansion code. */
  function Group(schema: Schema, n: nat): seq<string> {
    (if n < schema.cnf then [CnfName(n)] else []) +
    (if n < schema.data then DataMembers(schema.shards, n) else [])
  }

  function DataMembers(shards: int, n: nat): seq<string> {
    seq(AtLeastZero(shards), s requires 0 <= s => DataName(s + 1, n))
  }

  lemma OneMoreShard(base: seq<string>, shard: nat, n: nat)
    requires shard >= 1
    ensures base + DataMembers(shard, n) == (base + DataMembers(shard - 1, n)) + [DataName(shard, n)]
  {
  }

  lemma SameShards(a: int, b: int, n: nat)
    requires AtLeastZero(a) == AtLeastZero(b)
    ensures DataMembers(a, n) == DataMembers(b, n)
  {
  }

  ghost predicate IsCnf(schema: Schema, name: string) {
    exists i: nat :: i < schema.cnf && name == CnfName(i)
  }

  ghost predicate IsData(schema: Schema, name: string) {
    exists shard: nat, i: nat :: 1 <= shard <= schema.shards && i < schema.data && name == DataName(shard, i)
  }

  /** Names the create steps give out: the config set is only created for a sharded cluster. */
  ghost predicate Created(schema: Schema, name: string) {
    (schema.sharded && IsCnf(schema, name)) || IsData(schema, name)
  }

  ghost predicate InSomeGroup(schema: Schema, name: string) {
    exists n: nat :: n < PvcCount(schema) && name in Group(schema, n)
  }

  predicate DecimalsUnambiguous(schema: Schema) {
    schema.shards <= 10 || schema.data <= 10
  }

  ghost predicate Disjoint(a: seq<string>, b: seq<string>) {
    forall name :: name in a ==> name !in b
  }

  ghost predicate Distinct<T>(a: seq<T>) {
    forall i, j :: 0 <= i < j < |a| ==> a[i] != a[j]
  }

  lemma KindsDiffer(i: nat, shard: nat, j: nat)
    ensures CnfName(i) != DataName(shard, j)
  {
    assert CnfName(i)[0] == 'c' && DataName(shard, j)[0] == 'd';
  }

  lemma CnfInjective(i: nat, j: nat)
    requires CnfName(i) == CnfName(j)
    ensures i == j
  {
    assert CnfName(i)[5..] == Dec(i) && CnfName(j)[5..] == Dec(j);
    Injective(i, j);
  }

  lemma DataTail(shard: nat, i: nat)
    ensures DataName(shard, i)[6..] == Dec(shard) + Dec(i)
  {
  }

  lemma DataInjective(schema: Schema, s: nat, i: nat, t: nat, j: nat)
    requires DecimalsUnambiguous(schema)
    requires 1 <= s <= schema.shards && 1 <= t <= schema.shards && i < schema.data && j < schema.data
    requires DataName(s, i) == DataName(t, j)
    ensures s == t && i == j
  {
    DataTail(s, i);
    DataTail(t, j);
    if schema.shards <= 10 {
      ShortHeadInjective(s, i, t, j);
    } else {
      ShortTailInjective(s, i, t, j);
    }
  }

  lemma InGroup(schema: Schema, n: nat, name: string)
    ensures name in Group(schema, n) <==>
            (n < schema.cnf && name == CnfName(n)) ||
            (n < schema.data && exists s: nat :: 1 <= s <= schema.shards && name == DataName(s, n))
  {
    if n < schema.data {
      var d := DataMembers(schema.shards, n);
      if s: nat :| 1 <= s <= schema.shards && name == DataName(s, n) {
        assert d[s - 1] == name;
      }
      if name in d {
        var k :| 0 <= k < |d| && d[k] == name;
        assert 1 <= k + 1 <= schema.shards && name == DataName(k + 1, n);
      }
    }
  }

  /** One group never lists a StatefulSet twice, whatever the sizes: the ordinal is fixed, so
      equal names have equal shard parts. */
  lemma GroupDistinct(schema: Schema, n: nat)
    ensures Distinct(Group(schema, n))
  {
    var g := Group(schema, n);
    var base := if n < schema.cnf then 1 else 0;
    forall i, j | 0 <= i < j < |g|
      ensures g[i] != g[j]
    {
      assert g[j] == DataName(j - base + 1, n);
      if i < base {
        KindsDiffer(n, j - base + 1, n);
      } else if g[i] == g[j] {
        var a, b := i - base + 1, j - base + 1;
        DataTail(a, n);
        DataTail(b, n);
        var x, y := Dec(a) + Dec(n), Dec(b) + Dec(n);
        assert x[..|x| - |Dec(n)|] == Dec(a) && y[..|y| - |Dec(n)|] == Dec(b);
        Injective(a, b);
      }
    }
  }

  /** The groups of all PVC ordinals cover the names of both replica-set kinds and nothing else. */
  lemma GroupsCover(schema: Schema, name: string)
    ensures InSomeGroup(schema, name) <==> IsCnf(schema, name) || IsData(schema, name)
  {
    if n: nat :| n < PvcCount(schema) && name in Group(schema, n) {
      InGroup(schema, n, name);
    }
    if i: nat :| i < schema.cnf && name == CnfName(i) {
      InGroup(schema, i, name);
    }
    if shard: nat, i: nat :| 1 <= shard <= schema.shards && i < schema.data && name == DataName(shard, i) {
      InGroup(schema, i, name);
    }
  }

  /** The groups are exactly the created StatefulSets when the cluster is sharded. Without
      sharding the config-server names are still scaled although nothing creates them. */
  lemma GroupsAreTheCreated(schema: Schema)
    ensures (forall name :: InSomeGroup(schema, name) <==> Created(schema, name)) <==>
            schema.sharded || schema.cnf <= 0
  {
    forall name {
      GroupsCover(schema, name);
    }
    if !schema.sharded && schema.cnf > 0 {
      var name := CnfName(0);
      assert IsCnf(schema, name);
      if shard: nat, i: nat :| name == DataName(shard, i) {
        KindsDiffer(0, shard, i);
      }
      assert InSomeGroup(schema, name) && !Created(schema, name);
    }
  }

  lemma GroupsDisjoint(schema: Schema, m: nat, n: nat)
    requires DecimalsUnambiguous(schema) && m != n
    ensures Disjoint(Group(schema, m), Group(schema, n))
  {
    forall name | name in Group(schema, m)
      ensures name !in Group(schema, n)
    {
      InGroup(schema, m, name);
      InGroup(schema, n, name);
      if name in Group(schema, n) {
        if m < schema.cnf && name == CnfName(m) {
          if n < schema.cnf && name == CnfName(n) {
            CnfInjective(m, n);
          } else {
            var t: nat :| 1 <= t <= schema.shards && name == DataName(t, n);
            KindsDiffer(m, t, n);
          }
        } else {
          var s: nat :| 1 <= s <= schema.shards && name == DataName(s, m);
          if n < schema.cnf && name == CnfName(n) {
            KindsDiffer(n, s, m);
          } else {
            var t: nat :| 1 <= t <= schema.shards && name == DataName(t, n);
            DataInjective(schema, s, m, t, n);
          }
        }
      }
    }
  }

  /** The groups partition the names exactly when the undelimited decimals can be told apart: with
      eleven shards and eleven data replicas, member 10 of shard 1 and member 0 of shard 11 are
      both called datars110. */
  lemma GroupsPartition(schema: Schema)
    ensures (forall m: nat, n: nat :: m < n < PvcCount(schema) ==> Disjoint(Group(schema, m), Group(schema, n))) <==>
            DecimalsUnambiguous(schema)
  {
    if DecimalsUnambiguous(schema) {
      forall m: nat, n: nat | m < n < PvcCount(schema)
        ensures Disjoint(Group(schema, m), Group(schema, n))
      {
        GroupsDisjoint(schema, m, n);
      }
    } else {
      var name := DataName(11, 0);
      assert Dec(11) == Dec(1) + [Digit(1)] && Dec(10) == Dec(1) + [Digit(0)];
      assert name == "datars" + "11" + "0" == "datars" + "1" + "10" == DataName(1, 10);
      InGroup(schema, 0, name);
      InGroup(schema, 10, name);
      assert !Disjoint(Group(schema, 0), Group(schema, 10));
      assert 0 < 10 < PvcCount(schema);
    }
  }
}
