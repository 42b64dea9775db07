/** What the create steps ask of the allocator: which volume and node each StatefulSet gets, and how
    that fits the groups in which the expansion restarts them. */
module Topology {
  import opened Wrappers
  import opened Names
  import opened Placement

  datatype SchemaType = Single | HA | Arbiter | DR

  /** `CalculateMaxReplicaSizeStep.Validate`. */
  predicate Validated(kind: SchemaType, schema: Schema) {
    kind == Single ||
    (schema.cnf != 0 && schema.data != 0 && schema.shards != 0 &&
     (kind == DR || (schema.cnf % 2 != 0 && schema.data % 2 != 0)))
  }

  method Validate(kind: SchemaType, schema: Schema) returns (ok: bool)
    ensures ok <==> Validated(kind, schema)
    ensures kind == Single ==> ok
    ensures kind != Single ==>
              (ok <==> 0 !in {schema.cnf, schema.data, schema.shards} &&
                       (kind == DR || (schema.cnf % 2 != 0 && schema.data % 2 != 0)))
  {
    ok := true;
    if kind != Single {
      if schema.cnf == 0 || schema.data == 0 || schema.shards == 0 {
        return false;
      }
      if kind != DR {
        if schema.cnf % 2 == 0 || schema.data % 2 == 0 {
          return false;
        }
      }
    }
  }

  /** `CalculateMaxReplicaSizeStep.Execute`: the number of PVCs is the larger of the two sizes. */
  method CalculateMaxReplicaSize(kind: SchemaType, schema: Schema) returns (res: int)
    ensures kind == Single ==> res == 1
    ensures kind != Single ==> res == PvcCount(schema)
    ensures kind != Single ==> res >= schema.data && res >= schema.cnf && (res == schema.data || res == schema.cnf)
  {
    if kind == Single {
      res := 1;
    } else {
      res := if schema.data > schema.cnf then schema.data else schema.cnf;
    }
  }

  /** The PVC step makes one volume per ordinal, each with its own non-empty name. */
  ghost predicate PvcList(schema: Schema, pvcs: seq<string>) {
    |pvcs| == AtLeastZero(PvcCount(schema)) && Distinct(pvcs) && forall i :: 0 <= i < |pvcs| ==> pvcs[i] != ""
  }

  ghost function CnfVolume(schema: Schema, pvcs: seq<string>, i: int): Result<(string, string)> {
    Distribution(DummyPvcMap(pvcs), schema.cnf, i, 1, 0)
  }

  ghost function DataVolume(schema: Schema, pvcs: seq<string>, s: int, i: int): Result<(string, string)> {
    Distribution(DummyPvcMap(pvcs), schema.data, i, schema.shards, s)
  }

  /** The node pick of member `i` of a set, made as for a lone shard whatever the set. */
  ghost function NodePick(nodes: seq<Element>, size: int, i: int): Result<map<string, string>> {
    NodeSelector(nodes, size, i, 1, 0)
  }

  /** No call of the two create steps panics, neither for a volume nor for a node. */
  ghost predicate AllPlaced(schema: Schema, pvcs: seq<string>, nodes: seq<Element>) {
    (schema.sharded ==> CnfPlaced(schema, pvcs, nodes)) && DataPlaced(schema, pvcs, nodes)
  }

  ghost predicate CnfPlaced(schema: Schema, pvcs: seq<string>, nodes: seq<Element>) {
    forall i: nat :: i < schema.cnf ==> CnfVolume(schema, pvcs, i).Success? && NodePick(nodes, schema.cnf, i).Success?
  }

  ghost predicate DataPlaced(schema: Schema, pvcs: seq<string>, nodes: seq<Element>) {
    forall s: nat, i: nat :: s < schema.shards && i < schema.data ==>
      DataVolume(schema, pvcs, s, i).Success? && NodePick(nodes, schema.data, i).Success?
  }

  /** A set of `size` members can be served from `count` elements. */
  predicate Serves(count: nat, size: nat) {
    size <= count && !(count % 2 == 1 && size % 2 == 0)
  }

  /** A set finds its volumes, and its nodes if any are labelled. */
  predicate Fits(schema: Schema, nodes: seq<Element>, size: int) {
    size > 0 ==> Serves(AtLeastZero(PvcCount(schema)), size) && (nodes == [] || Serves(|nodes|, size))
  }

  /** The members of one shard are all served exactly when the count serves them; short lists panic. */
  lemma ServedIff(elements: seq<Element>, size: nat, shards: nat)
    requires Named(elements) && size >= 1 && shards >= 1
    ensures (forall i: nat, s: nat :: i < size && s < shards ==> Distribution(elements, size, i, shards, s).Success?) <==>
            Serves(|elements|, size)
  {
    if size <= |elements| {
      EveryReplicaServed(elements, size, shards);
    } else {
      assert Distribution(elements, size, size - 1, shards, 0).Failure?;
    }
  }

  lemma NodesServedIff(nodes: seq<Element>, size: nat)
    requires Named(nodes) && size >= 1
    ensures (forall i: nat :: i < size ==> NodePick(nodes, size, i).Success?) <==> nodes == [] || Serves(|nodes|, size)
  {
    if nodes != [] {
      ServedIff(nodes, size, 1);
      forall i: nat | i < size
        ensures NodePick(nodes, size, i).Success? <==> Distribution(nodes, size, i, 1, 0).Success?
      {
      }
      if i: nat, s: nat :| i < size && s < 1 && !Distribution(nodes, size, i, 1, s).Success? {
        assert !NodePick(nodes, size, i).Success?;
      }
    }
  }

  /** The create steps run through exactly when each created set finds its volumes and its nodes. The
      number of labelled nodes is an input of its own. */
  lemma PlacedIffListsFit(schema: Schema, pvcs: seq<string>, nodes: seq<Element>)
    requires PvcList(schema, pvcs) && Named(nodes)
    ensures AllPlaced(schema, pvcs, nodes) <==>
            (schema.sharded ==> Fits(schema, nodes, schema.cnf)) && (schema.shards > 0 ==> Fits(schema, nodes, schema.data))
  {
    if schema.cnf > 0 {
      CnfPlacedIff(schema, pvcs, nodes);
    }
    if schema.data > 0 && schema.shards > 0 {
      DataPlacedIff(schema, pvcs, nodes);
    }
  }

  lemma CnfPlacedIff(schema: Schema, pvcs: seq<string>, nodes: seq<Element>)
    requires PvcList(schema, pvcs) && Named(nodes) && schema.cnf > 0
    ensures CnfPlaced(schema, pvcs, nodes) <==> Fits(schema, nodes, schema.cnf)
  {
    ServedIff(DummyPvcMap(pvcs), schema.cnf, 1);
    NodesServedIff(nodes, schema.cnf);
    if i: nat, s: nat :| i < schema.cnf && s < 1 && !Distribution(DummyPvcMap(pvcs), schema.cnf, i, 1, s).Success? {
      assert !CnfVolume(schema, pvcs, i).Success?;
    }
    if i: nat :| i < schema.cnf && !NodePick(nodes, schema.cnf, i).Success? {
    }
    if Serves(AtLeastZero(PvcCount(schema)), schema.cnf) {
      forall i: nat | i < schema.cnf
        ensures CnfVolume(schema, pvcs, i).Success?
      {
        assert Distribution(DummyPvcMap(pvcs), schema.cnf, i, 1, 0).Success?;
      }
    }
  }

  lemma DataPlacedIff(schema: Schema, pvcs: seq<string>, nodes: seq<Element>)
    requires PvcList(schema, pvcs) && Named(nodes) && schema.data > 0 && schema.shards > 0
    ensures DataPlaced(schema, pvcs, nodes) <==> Fits(schema, nodes, schema.data)
  {
    ServedIff(DummyPvcMap(pvcs), schema.data, schema.shards);
    NodesServedIff(nodes, schema.data);
    if i: nat, s: nat :| i < schema.data && s < schema.shards &&
                         !Distribution(DummyPvcMap(pvcs), schema.data, i, schema.shards, s).Success? {
      assert !DataVolume(schema, pvcs, s, i).Success?;
    }
    if i: nat :| i < schema.data && !NodePick(nodes, schema.data, i).Success? {
      assert 0 < schema.shards && !(DataVolume(schema, pvcs, 0, i).Success? && NodePick(nodes, schema.data, i).Success?);
    }
  }

  /** Outside the DR schema validation takes care of the volumes, so only the labelled nodes can be too
      few or of the wrong parity for a created set. */
  lemma ValidatedSizesArePlaced(kind: SchemaType, schema: Schema, pvcs: seq<string>, nodes: seq<Element>)
    requires kind == HA || kind == Arbiter
    requires Validated(kind, schema) && PvcList(schema, pvcs) && Named(nodes)
    ensures AllPlaced(schema, pvcs, nodes) <==>
            || nodes == []
            || ((schema.sharded && schema.cnf > 0 ==> schema.cnf <= |nodes|) &&
                (schema.shards > 0 && schema.data > 0 ==> schema.data <= |nodes|))
  {
    PlacedIffListsFit(schema, pvcs, nodes);
  }

  /** The DR schema checks no parity: four config servers and five data replicas pass validation, yet
      the fourth config server has no volume and its create step panics, whatever the nodes. */
  lemma DrSizesCanPanic(pvcs: seq<string>, nodes: seq<Element>)
    requires PvcList(Schema(4, 5, 1, true), pvcs) && Named(nodes)
    ensures Validated(DR, Schema(4, 5, 1, true)) && !AllPlaced(Schema(4, 5, 1, true), pvcs, nodes)
  {
    PlacedIffListsFit(Schema(4, 5, 1, true), pvcs, nodes);
  }

  ghost function CnfOrdinal(schema: Schema): seq<int>
    requires 1 <= schema.cnf
  {
    RowShape(PvcCount(schema), schema.cnf, 1, 0);
    ShardRow(PvcCount(schema), schema.cnf, 1, 0)
  }

  ghost function DataOrdinal(schema: Schema, s: nat): seq<int>
    requires 1 <= schema.data && s < schema.shards
  {
    RowShape(PvcCount(schema), schema.data, schema.shards, s);
    ShardRow(PvcCount(schema), schema.data, schema.shards, s)
  }

  /** The picks by index: member `i` of a set has the volume at its own row entry, and the node at the entry
      of a lone shard's row over the nodes. */
  lemma PicksAreRowEntries(schema: Schema, pvcs: seq<string>, nodes: seq<Element>, s: nat, i: nat)
    requires PvcList(schema, pvcs) && Named(nodes)
    ensures i < schema.cnf ==>
              CnfVolume(schema, pvcs, i) ==
              if i < |CnfOrdinal(schema)| then Success(("kubernetes.io/hostname", pvcs[CnfOrdinal(schema)[i]])) else Failure
    ensures s < schema.shards && i < schema.data ==>
              DataVolume(schema, pvcs, s, i) ==
              if i < |DataOrdinal(schema, s)| then Success(("kubernetes.io/hostname", pvcs[DataOrdinal(schema, s)[i]])) else Failure
    ensures forall size: nat :: i < size <= |nodes| ==>
              0 <= Side(|nodes|) - Side(size) <= Side(|nodes|) &&
              var row := ShardRow(|nodes|, size, 1, 0);
              NodePick(nodes, size, i) == if i < |row| then Success(map[nodes[i].key := nodes[row[i]].value]) else Failure
  {
    if i < schema.cnf {
      PickIsRowEntry(DummyPvcMap(pvcs), schema.cnf, i, 1, 0);
    }
    if s < schema.shards && i < schema.data {
      PickIsRowEntry(DummyPvcMap(pvcs), schema.data, i, schema.shards, s);
    }
    forall size: nat | i < size <= |nodes|
      ensures 0 <= Side(|nodes|) - Side(size) <= Side(|nodes|)
      ensures var row := ShardRow(|nodes|, size, 1, 0);
              NodePick(nodes, size, i) == if i < |row| then Success(map[nodes[i].key := nodes[row[i]].value]) else Failure
    {
      SelectorIsRowEntry(nodes, size, i, 1, 0);
    }
  }

  /** Members of one replica set never share a volume. */
  lemma MembersHaveOwnVolumes(schema: Schema, pvcs: seq<string>, s: nat, i: nat, j: nat)
    requires PvcList(schema, pvcs) && s < schema.shards && i < j < schema.data
    requires DataVolume(schema, pvcs, s, i).Success? && DataVolume(schema, pvcs, s, j).Success?
    ensures DataVolume(schema, pvcs, s, i).value.1 != DataVolume(schema, pvcs, s, j).value.1
  {
    var elements := DummyPvcMap(pvcs);
    RowShape(|elements|, schema.data, schema.shards, s);
    PickIsRowEntry(elements, schema.data, i, schema.shards, s);
    PickIsRowEntry(elements, schema.data, j, schema.shards, s);
  }

  /** When no pair is left out a row is the identity: member `i` uses volume `i`. */
  lemma FullSetIsIdentity(length: nat, replicas: nat, shards: int, shard: nat)
    requires 1 <= replicas <= length && Side(replicas) == Side(length) && shard < shards
    ensures ShardRow(length, replicas, shards, shard) == seq(length, i => i)
  {
    assert ShardPops(Side(length), 0, shards == 1, shard) == [];
    FullRow(length, length);
  }

  // ----- which volume an expansion group shares

  /** StatefulSet `name` mounts the volume of ordinal `n`. */
  ghost predicate Mounts(schema: Schema, name: string, n: nat) {
    || (schema.sharded && exists i: nat :: i < schema.cnf && name == CnfName(i) && i < |CnfOrdinal(schema)| && CnfOrdinal(schema)[i] == n)
    || (exists s: nat, i: nat :: s < schema.shards && i < schema.data && name == DataName(s + 1, i) &&
          i < |DataOrdinal(schema, s)| && DataOrdinal(schema, s)[i] == n)
  }

  ghost predicate GroupsShareVolumes(schema: Schema) {
    forall n: nat, name :: n < PvcCount(schema) ==> (name in Group(schema, n) <==> Mounts(schema, name, n))
  }

  lemma FullSetsShareVolumes(schema: Schema)
    requires 1 <= schema.cnf && 1 <= schema.data && Side(schema.cnf) == Side(schema.data) && 1 <= schema.shards
    requires schema.sharded
    ensures GroupsShareVolumes(schema)
  {
    FullSetIsIdentity(PvcCount(schema), schema.cnf, 1, 0);
    forall s: nat | s < schema.shards
      ensures DataOrdinal(schema, s) == seq(PvcCount(schema), i => i)
    {
      FullSetIsIdentity(PvcCount(schema), schema.data, schema.shards, s);
    }
    forall n: nat, name | n < PvcCount(schema)
      ensures name in Group(schema, n) <==> Mounts(schema, name, n)
    {
      InGroup(schema, n, name);
      if n < schema.cnf && name == CnfName(n) {
        assert CnfOrdinal(schema)[n] == n;
      }
      if t: nat :| 1 <= t <= schema.shards && name == DataName(t, n) {
        assert DataOrdinal(schema, t - 1)[n] == n;
      }
    }
  }

  /** A set that leaves out pairs cannot keep to its ordinals: a left-out pair lies before the middle
      of the volumes, which every row keeps. */
  lemma SmallerSetMoves(length: nat, replicas: nat, shards: int, shard: nat)
    requires 1 <= replicas <= length && Side(replicas) < Side(length) && shard < shards
    ensures 0 <= Side(length) - Side(replicas) <= Side(length)
    ensures var row := ShardRow(length, replicas, shards, shard);
            exists i :: 0 <= i < replicas && i < |row| && row[i] != i
  {
    var side := Side(length);
    RowShape(length, replicas, shards, shard);
    var row := ShardRow(length, replicas, shards, shard);
    var gap := GapInRow(length, replicas, shards, shard);
    assert side in row && length - 1 - side in row;
    GapMoves(row, replicas, gap, side, length - 1 - side);
  }

  lemma GapInRow(length: nat, replicas: nat, shards: int, shard: nat) returns (gap: nat)
    requires 1 <= replicas <= length && Side(replicas) < Side(length) && shard < shards
    ensures gap < Side(length) && gap !in ShardRow(length, replicas, shards, shard)
  {
    var side, extra := Side(length), Side(length) - Side(replicas);
    var pops := ShardPops(side, extra, shards == 1, shard);
    PopsDistinct(side, extra, shards == 1, shard);
    RowIsTheKept(length, pops, length);
    gap := pops[0];
    assert !Kept(length, pops, gap);
  }

  lemma GapMoves(row: seq<int>, replicas: nat, gap: int, middle: int, other: int)
    requires forall a, b :: 0 <= a < b < |row| ==> row[a] < row[b]
    requires 0 <= gap < middle && gap !in row && middle in row && other in row
    requires |row| <= replicas || (|row| == replicas + 1 && middle < other)
    ensures exists i :: 0 <= i < replicas && i < |row| && row[i] != i
  {
    var k :| 0 <= k < |row| && row[k] == middle;
    var m :| 0 <= m < |row| && row[m] == other;
    assert middle < other ==> k < m;
    if row[k] == k {
      assert row[gap] != gap;
    }
  }

  /** A group is the set of StatefulSets that mount its volume exactly when the cluster is sharded and the
      config set and the data sets leave out no pair of volumes, which for odd sizes means that they are
      equally large. Without sharding nothing mounts a volume under a config-server name.
      Otherwise the restarts of a group leave pods of other ordinals attached to the volume being
      resized. */
  lemma GroupsShareVolumesIff(schema: Schema)
    requires schema.cnf >= 1 && schema.data >= 1 && schema.shards >= 1 && DecimalsUnambiguous(schema)
    ensures GroupsShareVolumes(schema) <==> schema.sharded && Side(schema.cnf) == Side(schema.data)
    ensures schema.cnf % 2 == schema.data % 2 ==>
              (GroupsShareVolumes(schema) <==> schema.sharded && schema.cnf == schema.data)
  {
    if !schema.sharded {
      InGroup(schema, 0, CnfName(0));
      forall s: nat, i: nat {
        KindsDiffer(0, s + 1, i);
      }
      assert CnfName(0) in Group(schema, 0) && !Mounts(schema, CnfName(0), 0);
    } else if Side(schema.cnf) == Side(schema.data) {
      FullSetsShareVolumes(schema);
    } else if schema.cnf < schema.data {
      CnfLeavesItsGroup(schema);
    } else {
      DataLeavesItsGroup(schema);
    }
  }

  lemma CnfLeavesItsGroup(schema: Schema)
    requires 1 <= schema.cnf < schema.data && Side(schema.cnf) < Side(schema.data) && schema.shards >= 1
    ensures exists i: nat :: i < schema.cnf && CnfName(i) in Group(schema, i) && !Mounts(schema, CnfName(i), i)
  {
    SmallerSetMoves(PvcCount(schema), schema.cnf, 1, 0);
    var row := CnfOrdinal(schema);
    var i: nat :| i < schema.cnf && i < |row| && row[i] != i;
    InGroup(schema, i, CnfName(i));
    assert !Mounts(schema, CnfName(i), i) by {
      if j: nat :| j < schema.cnf && CnfName(i) == CnfName(j) && j < |row| && row[j] == i {
        CnfInjective(i, j);
      }
      forall s: nat, j: nat {
        KindsDiffer(i, s, j);
      }
    }
  }

  lemma DataLeavesItsGroup(schema: Schema)
    requires 1 <= schema.data < schema.cnf && Side(schema.data) < Side(schema.cnf)
    requires schema.shards >= 1 && DecimalsUnambiguous(schema)
    ensures exists i: nat :: i < schema.data && DataName(1, i) in Group(schema, i) && !Mounts(schema, DataName(1, i), i)
  {
    SmallerSetMoves(PvcCount(schema), schema.data, schema.shards, 0);
    var row := DataOrdinal(schema, 0);
    var i: nat :| i < schema.data && i < |row| && row[i] != i;
    InGroup(schema, i, DataName(1, i));
    OnlyOwnRowMounts(schema, i);
  }

  lemma OnlyOwnRowMounts(schema: Schema, i: nat)
    requires 1 <= schema.data && i < schema.data && schema.shards >= 1 && DecimalsUnambiguous(schema)
    requires i < |DataOrdinal(schema, 0)| && DataOrdinal(schema, 0)[i] != i
    ensures !Mounts(schema, DataName(1, i), i)
  {
    forall j: nat {
      KindsDiffer(j, 1, i);
    }
    if s: nat, j: nat :| s < schema.shards && j < schema.data && DataName(1, i) == DataName(s + 1, j) &&
                         j < |DataOrdinal(schema, s)| && DataOrdinal(schema, s)[j] == i {
      DataInjective(schema, 1, i, s + 1, j);
    }
  }

  // ----- volume and node of a data replica

  /** Two rows give member `i` the same index, or both leave it without one. */
  ghost predicate SamePick(a: seq<int>, b: seq<int>, i: nat) {
    if i < |a| && i < |b| then a[i] == b[i] else |a| <= i && |b| <= i
  }

  ghost predicate PicksAgree(volumes: nat, nodes: nat, replicas: nat, shards: nat)
    requires 1 <= replicas <= volumes && replicas <= nodes
  {
    forall s: nat, i: nat :: s < shards && i < replicas ==>
      SamePick(ShardRow(volumes, replicas, shards, s), ShardRow(nodes, replicas, 1, 0), i)
  }

  /** A data replica's volume is picked for its own shard, its node always as if there were a single
      shard, and from a list of its own. The two picks have equal indices for all replicas of all shards
      exactly when the lists have equally many pairs, the shards leave out the same pairs, and the lists
      are equally long unless that does not matter. */
  lemma VolumeAndNodeAgree(volumes: nat, nodes: nat, replicas: nat, shards: nat)
    requires 1 <= replicas <= volumes && replicas <= nodes && shards >= 1
    ensures PicksAgree(volumes, nodes, replicas, shards) <==>
            && Side(volumes) == Side(nodes)
            && (volumes == nodes || Side(replicas) == Side(volumes) || replicas == 1)
            && (shards == 1 || Side(replicas) == Side(volumes) || Side(replicas) == 0)
  {
    var side, kept := Side(volumes), Side(replicas);
    if side != Side(nodes) {
      MiddleOfRow(volumes, replicas, shards, 0);
      MiddleOfRow(nodes, replicas, 1, 0);
      assert !SamePick(ShardRow(volumes, replicas, shards, 0), ShardRow(nodes, replicas, 1, 0), kept);
    } else if kept == side {
      FullSetIsIdentity(nodes, replicas, 1, 0);
      forall s: nat | s < shards {
        FullSetIsIdentity(volumes, replicas, shards, s);
      }
    } else if shards > 1 && kept > 0 {
      FirstRowsDiffer(volumes, nodes, replicas, shards);
    } else {
      PairsAgree(volumes, nodes, replicas, shards);
    }
  }

  lemma FirstRowsDiffer(volumes: nat, nodes: nat, replicas: nat, shards: nat)
    requires 1 <= replicas <= volumes && replicas <= nodes && shards > 1
    requires 0 < Side(replicas) < Side(volumes) && Side(volumes) == Side(nodes)
    ensures !PicksAgree(volumes, nodes, replicas, shards)
  {
    var side, extra := Side(volumes), Side(volumes) - Side(replicas);
    FirstPops(side, extra);
    var a, b := ShardRow(volumes, replicas, shards, 0), ShardRow(nodes, replicas, 1, 0);
    RowIsTheKept(volumes, ShardPops(side, extra, false, 0), volumes);
    RowIsTheKept(nodes, ShardPops(side, extra, true, 0), nodes);
    MiddleOfRow(volumes, replicas, shards, 0);
    assert 0 !in a && a[0] in a;
    assert Kept(nodes, ShardPops(side, extra, true, 0), 0) && 0 in b;
    assert b[0] == 0;
    assert !SamePick(a, b, 0);
  }

  /** The case in which all shards leave out the same pairs, and some at all. */
  lemma PairsAgree(volumes: nat, nodes: nat, replicas: nat, shards: nat)
    requires 1 <= replicas <= volumes && replicas <= nodes && shards >= 1
    requires Side(replicas) < Side(volumes) && Side(volumes) == Side(nodes) && (shards == 1 || Side(replicas) == 0)
    ensures PicksAgree(volumes, nodes, replicas, shards) <==> volumes == nodes || replicas == 1
  {
    var side, extra := Side(volumes), Side(volumes) - Side(replicas);
    if volumes == nodes {
      forall s: nat | s < shards
        ensures ShardRow(volumes, replicas, shards, s) == ShardRow(nodes, replicas, 1, 0)
      {
        SamePairs(side, extra, shards, s);
        SamePopsSameRow(volumes, ShardPops(side, extra, shards == 1, s), ShardPops(side, extra, true, 0), volumes);
      }
    } else if replicas == 1 {
      MiddleOfRow(nodes, replicas, 1, 0);
      forall s: nat | s < shards {
        MiddleOfRow(volumes, replicas, shards, s);
      }
    } else {
      ParitiesDiffer(volumes, nodes, replicas, shards);
    }
  }

  /** A row of even length has a second middle element, which one of odd length does not have. */
  lemma ParitiesDiffer(volumes: nat, nodes: nat, replicas: nat, shards: nat)
    requires 2 <= replicas <= volumes && replicas <= nodes && shards >= 1 && volumes != nodes
    requires Side(replicas) < Side(volumes) && Side(volumes) == Side(nodes) && (shards == 1 || Side(replicas) == 0)
    ensures !SamePick(ShardRow(volumes, replicas, shards, 0), ShardRow(nodes, replicas, 1, 0), Side(replicas) + 1)
  {
    SecondMiddleIff(volumes, replicas, shards);
    SecondMiddleIff(nodes, replicas, 1);
    var a, b := ShardRow(volumes, replicas, shards, 0), ShardRow(nodes, replicas, 1, 0);
    OneSideTwoLengths(volumes, nodes);
    PickOfOneOnly(a, b, Side(replicas) + 1, Side(volumes) + 1);
  }

  lemma SecondMiddleIff(length: nat, replicas: nat, shards: nat)
    requires 2 <= replicas <= length && Side(replicas) < Side(length) && shards >= 1
    requires shards == 1 || Side(replicas) == 0
    ensures var row, next := ShardRow(length, replicas, shards, 0), Side(replicas) + 1;
            length % 2 == 0 <==> next < |row| && row[next] == Side(length) + 1
  {
    MiddleOfRow(length, replicas, shards, 0);
    NoPairAtMiddle(length, replicas, shards);
  }

  lemma OneSideTwoLengths(a: nat, b: nat)
    requires Side(a) == Side(b) && a != b && a >= 1 && b >= 1
    ensures a % 2 != b % 2
  {
  }

  lemma PickOfOneOnly(a: seq<int>, b: seq<int>, i: nat, x: int)
    requires (i < |a| && a[i] == x) <==> !(i < |b| && b[i] == x)
    ensures !SamePick(a, b, i)
  {
  }

  lemma SamePairs(side: nat, extra: nat, shards: nat, s: nat)
    requires extra <= side && s < shards && (shards == 1 || extra == side)
    ensures forall i :: i in ShardPops(side, extra, shards == 1, s) <==> i in ShardPops(side, extra, true, 0)
  {
    FirstPops(side, extra);
    if shards > 1 {
      AllOrNonePopped(side, extra, s);
    }
  }

  /** For an odd length the pair next to the middle is left out, so the row has no element just past it. */
  lemma NoPairAtMiddle(length: nat, replicas: nat, shards: nat)
    requires 1 <= replicas <= length && Side(replicas) < Side(length) && shards >= 1
    requires shards == 1 || Side(replicas) == 0
    ensures length % 2 == 1 ==> Side(length) + 1 !in ShardRow(length, replicas, shards, 0)
  {
    var side, extra := Side(length), Side(length) - Side(replicas);
    var pops := ShardPops(side, extra, shards == 1, 0);
    SamePairs(side, extra, shards, 0);
    FirstPops(side, extra);
    RowIsTheKept(length, pops, length);
    assert side - 1 in pops;
    assert length % 2 == 1 ==> length - 1 - (side + 1) == side - 1;
  }

  /** The middle elements come right after the kept ones of the front half. */
  lemma MiddleOfRow(length: nat, replicas: nat, shards: int, shard: nat)
    requires 1 <= replicas <= length && shard < shards
    ensures var row, kept := ShardRow(length, replicas, shards, shard), Side(replicas);
            && kept < |row| && row[kept] == Side(length)
            && (length % 2 == 0 ==> kept + 1 < |row| && row[kept + 1] == Side(length) + 1)
  {
    var side, extra := Side(length), Side(length) - Side(replicas);
    PopsDistinct(side, extra, shards == 1, shard);
    MiddleOfKept(length, ShardPops(side, extra, shards == 1, shard));
  }

  lemma MiddleOfKept(length: nat, pops: seq<int>)
    requires length > 0
    requires forall j :: 0 <= j < |pops| ==> 0 <= pops[j] < Side(length)
    requires forall i, j :: 0 <= i < j < |pops| ==> pops[i] != pops[j]
    ensures var row, kept := Row(length, pops, length), Side(length) - |pops|;
            && 0 <= kept < |row| && row[kept] == Side(length)
            && (length % 2 == 0 ==> kept + 1 < |row| && row[kept + 1] == Side(length) + 1)
  {
    FrontLength(length, pops);
    NextKept(length, pops, Side(length));
    if length % 2 == 0 {
      NextKept(length, pops, Side(length) + 1);
      assert Kept(length, pops, Side(length));
    }
  }

  lemma NextKept(length: nat, pops: seq<int>, i: nat)
    requires i < length && Kept(length, pops, i)
    ensures var row, at := Row(length, pops, length), |Row(length, pops, i)|;
            at < |row| && row[at] == i
  {
    assert Row(length, pops, i + 1) == Row(length, pops, i) + [i];
    RowGrows(length, pops, i + 1, length);
  }

  lemma {:induction false} FrontLength(length: nat, pops: seq<int>)
    requires length > 0
    requires forall j :: 0 <= j < |pops| ==> 0 <= pops[j] < Side(length)
    requires forall i, j :: 0 <= i < j < |pops| ==> pops[i] != pops[j]
    ensures |Row(length, pops, Side(length))| == Side(length) - |pops|
  {
    if pops == [] {
      FullRow(length, Side(length));
    } else {
      var before, p := pops[..|pops| - 1], pops[|pops| - 1];
      FrontLength(length, before);
      OneMorePop(length, before, p, Side(length));
      assert before + [p] == pops;
    }
  }

  lemma {:induction false} RowGrows(length: nat, pops: seq<int>, m: nat, n: nat)
    requires m <= n
    ensures Row(length, pops, m) <= Row(length, pops, n)
  {
    if m < n {
      RowGrows(length, pops, m, n - 1);
    }
  }

  lemma AllOrNonePopped(side: nat, extra: nat, k: nat)
    requires extra == 0 || extra == side
    ensures forall i :: i in ShardPops(side, extra, false, k) <==> 0 <= i < extra
  {
    if extra > 0 {
      WeightsAreTwoLevel(side, extra, k);
      var (laps, at) := Cursor(side, extra, k);
      PopsOfTwoLevel(side, k - laps, at, extra);
      RotationMembers(side, at, extra);
    }
  }
}
