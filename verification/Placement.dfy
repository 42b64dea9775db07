/** How the operator gives every replica of every shard a volume (and a node): a greedy allocator
    that keeps a running weight for each mirrored pair of volumes and, per shard, leaves out the
    heaviest pairs. */
module Placement {
  import opened Wrappers

  /** A one-entry Go map: the label key and the volume or node name. */
  datatype Element = Element(key: string, value: string)

  /** Go's `/ 2`, which truncates toward zero. */
  function Half(n: int): int {
    if n >= 0 then n / 2 else -((-n) / 2)
  }

  /** Number of mirrored pairs among `count` elements. */
  function Side(count: int): int {
    Half(count - 1)
  }

  /** Go's division leaves a remainder of at most one, never past zero. */
  lemma HalfTruncates(n: int)
    ensures n >= 0 ==> 0 <= n - 2 * Half(n) <= 1
    ensures n < 0 ==> -1 <= n - 2 * Half(n) <= 0
  {
  }

  // ----- what one round does

  /** The pick of `__max`: the heaviest pair not popped yet; ties go to the first one, or to the
      last one when there is a single shard. */
  ghost predicate Heaviest(weights: seq<int>, popped: seq<int>, single: bool, best: int) {
    && 0 <= best < |weights| && best !in popped
    && (forall i :: 0 <= i < |weights| && i !in popped ==> weights[i] <= weights[best])
    && (forall i :: 0 <= i < |weights| && i !in popped && weights[i] == weights[best] ==>
          if single then i <= best else best <= i)
  }

  ghost function NextPop(weights: seq<int>, popped: seq<int>, single: bool): int {
    if best :| Heaviest(weights, popped, single, best) then best else -1
  }

  ghost function Pops(weights: seq<int>, n: nat, single: bool): (p: seq<int>)
    ensures |p| == n
  {
    if n == 0 then [] else
      var before := Pops(weights, n - 1, single);
      before + [NextPop(weights, before, single)]
  }

  function Charge(weights: seq<int>, pops: seq<int>): seq<int> {
    seq(|weights|, i requires 0 <= i < |weights| => if i in pops then weights[i] else weights[i] + 1)
  }

  /** The weights after `k` shards. */
  ghost function Weights(side: nat, extra: nat, single: bool, k: nat): (w: seq<int>)
    ensures |w| == side
  {
    if k == 0 then seq(side, _ => 0) else
      var before := Weights(side, extra, single, k - 1);
      Charge(before, Pops(before, extra, single))
  }

  /** The pairs that shard `k` does without. */
  ghost function ShardPops(side: nat, extra: nat, single: bool, k: nat): seq<int> {
    Pops(Weights(side, extra, single, k), extra, single)
  }

  predicate Kept(length: nat, pops: seq<int>, i: int) {
    i !in pops && length - 1 - i !in pops
  }

  /** The element indices below `n` that a shard keeps, in order. */
  function Row(length: nat, pops: seq<int>, n: nat): (row: seq<int>)
    ensures |row| <= n && forall a :: 0 <= a < |row| ==> 0 <= row[a] < n
  {
    if n == 0 then [] else
      Row(length, pops, n - 1) + (if Kept(length, pops, n - 1) then [n - 1] else [])
  }

  function RowValues(values: seq<string>, pops: seq<int>, n: nat): seq<string>
    requires n <= |values|
  {
    if n == 0 then [] else
      RowValues(values, pops, n - 1) +
      (if Kept(|values|, pops, n - 1) && values[n - 1] != "" then [values[n - 1]] else [])
  }

  function Values(elements: seq<Element>): seq<string> {
    seq(|elements|, i requires 0 <= i < |elements| => elements[i].value)
  }

  /** The elements, by name, that shard `k` uses. */
  ghost function ShardValues(elements: seq<Element>, extra: nat, single: bool, k: nat): seq<string> {
    RowValues(Values(elements), ShardPops(Side(|elements|), extra, single, k), |elements|)
  }

  /** What a call returns. Every failing case is a Go panic: a negative slice size, a pop from an
      empty choice, or an index out of range. */
  ghost function Distribution(elements: seq<Element>, replicas: int, replica: int, shards: int, shard: int)
    : Result<(string, string)>
  {
    var side, extra := Side(|elements|), Side(|elements|) - Side(replicas);
    if !(0 <= extra <= side && 0 <= shard < shards) then Failure
    else
      var row := ShardValues(elements, extra, shards == 1, shard);
      if 0 <= replica < |row| && replica < |elements| then Success((elements[replica].key, row[replica])) else Failure
  }

  lemma NextPopIs(weights: seq<int>, popped: seq<int>, single: bool, best: int)
    requires Heaviest(weights, popped, single, best)
    ensures NextPop(weights, popped, single) == best
  {
  }

  // ----- closed form of the greedy choice

  /** Laps and position of a cursor that advances by `extra` per shard around `side` places. */
  ghost function Cursor(side: nat, extra: nat, k: nat): (c: (nat, nat))
    requires 0 < side && extra <= side
    ensures c.1 < side
  {
    if k == 0 then (0, 0) else
      var (laps, at) := Cursor(side, extra, k - 1);
      if at + extra < side then (laps, at + extra) else (laps + 1, at + extra - side)
  }

  lemma {:induction false} CursorTotal(side: nat, extra: nat, k: nat)
    requires 0 < side && extra <= side
    ensures var (laps, at) := Cursor(side, extra, k); laps * side + at == k * extra
  {
    if k > 0 {
      CursorTotal(side, extra, k - 1);
      var laps := Cursor(side, extra, k - 1).0;
      Successor(k - 1, extra);
      Successor(laps, side);
    }
  }

  lemma Successor(a: int, b: int)
    ensures (a + 1) * b == a * b + b
  {
  }

  function Wrap(side: nat, x: nat): nat
    requires 0 < side
  {
    if x < side then x else x - side
  }

  /** `n` consecutive places of a circle of `side`, starting at `at`. */
  function Rotation(side: nat, at: nat, n: nat): (r: seq<int>)
    requires at < side && n <= side
    ensures |r| == n && forall j :: 0 <= j < n ==> r[j] == Wrap(side, at + j)
  {
    seq(n, j requires 0 <= j => Wrap(side, at + j))
  }

  lemma RotationMembers(side: nat, at: nat, n: nat)
    requires at < side && n <= side
    ensures forall i :: i in Rotation(side, at, n) <==> (at <= i < side && i < at + n) || 0 <= i < at + n - side
  {
    var r := Rotation(side, at, n);
    forall i
      ensures i in r <==> (at <= i < side && i < at + n) || 0 <= i < at + n - side
    {
      if at <= i < side && i < at + n {
        assert r[i - at] == i;
      }
      if 0 <= i < at + n - side {
        assert r[i + side - at] == i;
      }
    }
  }

  function TwoLevel(side: nat, level: int, at: nat): seq<int> {
    seq(side, i => if i < at then level - 1 else level)
  }

  lemma {:induction false} PopsOfTwoLevel(side: nat, level: int, at: nat, n: nat)
    requires at < side && n <= side
    ensures Pops(TwoLevel(side, level, at), n, false) == Rotation(side, at, n)
  {
    if n > 0 {
      PopsOfTwoLevel(side, level, at, n - 1);
      NextOfTwoLevel(side, level, at, n - 1);
      NextPopIs(TwoLevel(side, level, at), Pops(TwoLevel(side, level, at), n - 1, false), false, Wrap(side, at + n - 1));
    }
  }

  lemma NextOfTwoLevel(side: nat, level: int, at: nat, n: nat)
    requires at < side && n < side
    ensures Heaviest(TwoLevel(side, level, at), Rotation(side, at, n), false, Wrap(side, at + n))
  {
    RotationMembers(side, at, n);
  }

  lemma ChargeOfTwoLevel(side: nat, level: int, at: nat, extra: nat, nextLevel: int, nextAt: nat)
    requires at < side && extra <= side
    requires if at + extra < side then nextLevel == level + 1 && nextAt == at + extra
             else nextLevel == level && nextAt == at + extra - side
    ensures Charge(TwoLevel(side, level, at), Rotation(side, at, extra)) == TwoLevel(side, nextLevel, nextAt)
  {
    RotationMembers(side, at, extra);
  }

  lemma NextWeights(side: nat, extra: nat, k: nat, level: int, at: nat)
    requires at < side && extra <= side && Weights(side, extra, false, k) == TwoLevel(side, level, at)
    ensures Weights(side, extra, false, k + 1) == Charge(TwoLevel(side, level, at), Rotation(side, at, extra))
  {
    WeightsStep(side, extra, false, k);
    PopsOfTwoLevel(side, level, at, extra);
  }

  lemma {:induction false} WeightsAreTwoLevel(side: nat, extra: nat, k: nat)
    requires 0 < side && extra <= side
    ensures var (laps, at) := Cursor(side, extra, k);
            Weights(side, extra, false, k) == TwoLevel(side, k - laps, at)
  {
    var (laps, at) := Cursor(side, extra, k);
    if k > 0 {
      WeightsAreTwoLevel(side, extra, k - 1);
      var (lapsBefore, before) := Cursor(side, extra, k - 1);
      NextWeights(side, extra, k - 1, k - 1 - lapsBefore, before);
      ChargeOfTwoLevel(side, k - 1 - lapsBefore, before, extra, k - laps, at);
    }
  }

  /** With several shards the greedy choice is a rotation: shard `k` leaves out `extra` consecutive
      pairs, starting where the shard before it stopped. */
  lemma PopsRotate(side: nat, extra: nat, k: nat, j: nat)
    requires j < extra <= side
    ensures ShardPops(side, extra, false, k)[j] == (k * extra + j) % side
  {
    WeightsAreTwoLevel(side, extra, k);
    CursorTotal(side, extra, k);
    var (laps, at) := Cursor(side, extra, k);
    PopsOfTwoLevel(side, k - laps, at, extra);
    WrapIsRemainder(side, laps, at + j, k * extra + j);
  }

  lemma WrapIsRemainder(side: nat, laps: nat, x: nat, total: nat)
    requires 0 < side && x < 2 * side && total == laps * side + x
    ensures total % side == Wrap(side, x)
  {
    if x < side {
      Remainder(side, laps, x, total);
    } else {
      Successor(laps, side);
      Remainder(side, laps + 1, x - side, total);
    }
  }

  lemma Remainder(d: nat, q: int, r: nat, x: int)
    requires r < d && x == q * d + r
    ensures x / d == q && x % d == r
  {
    var gap := q - x / d;
    assert d * gap == x % d - r by {
      assert x == d * (x / d) + x % d;
      assert d * gap == d * q - d * (x / d);
    }
  }

  /** A lone shard leaves out the last pairs instead. */
  lemma {:induction false} PopsOfLoneShard(side: nat, n: nat)
    requires n <= side
    ensures Pops(Weights(side, n, true, 0), n, true) == seq(n, j => side - 1 - j)
  {
    PopsOfZeros(side, n);
  }

  lemma {:induction false} PopsOfZeros(side: nat, n: nat)
    requires n <= side
    ensures Pops(seq(side, _ => 0), n, true) == seq(n, j => side - 1 - j)
  {
    if n > 0 {
      PopsOfZeros(side, n - 1);
      var popped := seq(n - 1, j => side - 1 - j);
      forall i | side - n < i < side
        ensures i in popped
      {
        assert popped[side - 1 - i] == i;
      }
      NextPopIs(seq(side, _ => 0), popped, true, side - n);
    }
  }

  /** What a shard leaves out is `extra` different pairs. */
  lemma PopsDistinct(side: nat, extra: nat, single: bool, k: nat)
    requires extra <= side && (single ==> k == 0)
    ensures var pops := ShardPops(side, extra, single, k);
            && (forall j :: 0 <= j < extra ==> 0 <= pops[j] < side)
            && (forall i, j :: 0 <= i < j < extra ==> pops[i] != pops[j])
  {
    if single {
      PopsOfLoneShard(side, extra);
    } else if extra > 0 {
      WeightsAreTwoLevel(side, extra, k);
      var (laps, at) := Cursor(side, extra, k);
      PopsOfTwoLevel(side, k - laps, at, extra);
    }
  }

  // ----- fairness

  function Sum(s: seq<int>): int {
    if s == [] then 0 else Sum(s[..|s| - 1]) + s[|s| - 1]
  }

  lemma {:induction false} SumTwoLevel(side: nat, level: int, at: nat)
    requires at <= side
    ensures Sum(TwoLevel(side, level, at)) == side * level - at
  {
    var w := TwoLevel(side, level, at);
    if side > 0 {
      if at == side {
        assert w[..side - 1] == TwoLevel(side - 1, level, side - 1);
        SumTwoLevel(side - 1, level, side - 1);
      } else {
        assert w[..side - 1] == TwoLevel(side - 1, level, at);
        SumTwoLevel(side - 1, level, at);
      }
      assert (side - 1) * level + level == side * level;
    }
  }

  /** The weights in a run over `shards` shards, after any `k` of them. */
  ghost function RunWeights(side: nat, extra: nat, shards: nat, k: nat): (w: seq<int>)
    ensures |w| == side
  {
    Weights(side, extra, shards == 1, k)
  }

  /** Fair placement. At any point of a run the pairs have been used as often as the shards so far call
      for, and each pair carries exactly the floor of its share, or one more if it is among the last
      `total % side` pairs, or for a lone shard among the first ones. */
  lemma FairPlacement(side: nat, used: nat, shards: nat, k: nat, i: nat)
    requires used <= side && i < side && k <= shards
    ensures var w, total := RunWeights(side, side - used, shards, k), k * used;
            && Sum(w) == total
            && w[i] == total / side +
                       (if (if shards == 1 then i < total % side else i >= side - total % side) then 1 else 0)
  {
    if shards == 1 {
      LoneWeights(side, used, k, i);
    } else {
      ManyWeights(side, used, k, i);
    }
  }

  lemma ManyWeights(side: nat, used: nat, k: nat, i: nat)
    requires used <= side && i < side
    ensures var w, total := Weights(side, side - used, false, k), k * used;
            && Sum(w) == total
            && w[i] == total / side + (if i >= side - total % side then 1 else 0)
  {
    var extra := side - used;
    WeightsAreTwoLevel(side, extra, k);
    CursorTotal(side, extra, k);
    var (laps, at) := Cursor(side, extra, k);
    SumTwoLevel(side, k - laps, at);
    ShareOfLevels(side, used, k, laps, at);
  }

  lemma LoneWeights(side: nat, used: nat, k: nat, i: nat)
    requires used <= side && i < side && k <= 1
    ensures var w, total := Weights(side, side - used, true, k), k * used;
            && Sum(w) == total
            && w[i] == total / side + (if i < total % side then 1 else 0)
  {
    if k == 0 {
      assert Weights(side, side - used, true, 0) == seq(side, i => if i < 0 then 1 else 0);
      SumFirst(side, 0);
      Remainder(side, 0, 0, k * used);
    } else {
      assert k * used == used;
      LoneRound(side, used);
      SumFirst(side, used);
      if used < side {
        Remainder(side, 0, used, used);
      } else {
        Remainder(side, 1, 0, used);
      }
    }
  }

  /** The one round of a lone shard charges the first `used` pairs. */
  lemma LoneRound(side: nat, used: nat)
    requires used <= side
    ensures Weights(side, side - used, true, 1) == seq(side, i => if i < used then 1 else 0)
  {
    WeightsStep(side, side - used, true, 0);
    FirstPops(side, side - used);
  }

  lemma {:induction false} SumFirst(side: nat, used: nat)
    requires used <= side
    ensures Sum(seq(side, i => if i < used then 1 else 0)) == used
  {
    var w := seq(side, i => if i < used then 1 else 0);
    if side > 0 {
      var fewer := if used == side then used - 1 else used;
      SumFirst(side - 1, fewer);
      assert w[..side - 1] == seq(side - 1, i => if i < fewer then 1 else 0);
    }
  }

  lemma ShareOfLevels(side: nat, used: nat, shards: nat, laps: nat, at: nat)
    requires used <= side && at < side && laps * side + at == shards * (side - used)
    ensures side * (shards - laps) - at == shards * used
    ensures shards * used / side == if at == 0 then shards - laps else shards - laps - 1
    ensures shards * used % side == if at == 0 then 0 else side - at
  {
    var level := shards - laps;
    assert side * level == shards * side - laps * side;
    assert shards * (side - used) == shards * side - shards * used;
    if at == 0 {
      Remainder(side, level, 0, shards * used);
    } else {
      assert (level - 1) * side == side * level - side;
      Remainder(side, level - 1, side - at, shards * used);
    }
  }

  /** How many of the first `k` shards use element `v`. */
  ghost function Uses(length: nat, side: nat, extra: nat, shards: nat, k: nat, v: nat): nat {
    if k == 0 then 0 else
      Uses(length, side, extra, shards, k - 1, v) +
      (if Kept(length, ShardPops(side, extra, shards == 1, k - 1), v) then 1 else 0)
  }

  /** The running weights count real use: the two volumes of a pair serve as many shards as the
      pair weighs, and the volumes in the middle serve them all. */
  lemma {:induction false} WeightsCountUse(length: nat, side: nat, extra: nat, shards: nat, k: nat, v: nat)
    requires side == Side(length) && extra <= side && v < length && k <= shards
    ensures Uses(length, side, extra, shards, k, v) ==
            if v < side then RunWeights(side, extra, shards, k)[v]
            else if length - 1 - v < side then RunWeights(side, extra, shards, k)[length - 1 - v]
            else k
  {
    if k > 0 {
      WeightsCountUse(length, side, extra, shards, k - 1, v);
      WeightsStep(side, extra, shards == 1, k - 1);
      PopsDistinct(side, extra, shards == 1, k - 1);
      UseIsCharge(length, RunWeights(side, extra, shards, k - 1), ShardPops(side, extra, shards == 1, k - 1), v);
    }
  }

  /** A round charges the pairs whose volumes it uses. */
  lemma UseIsCharge(length: nat, weights: seq<int>, pops: seq<int>, v: nat)
    requires |weights| == Side(length) && v < length
    requires forall j :: 0 <= j < |pops| ==> 0 <= pops[j] < |weights|
    ensures var side, after, used := |weights|, Charge(weights, pops), if Kept(length, pops, v) then 1 else 0;
            if v < side then after[v] == weights[v] + used
            else if length - 1 - v < side then after[length - 1 - v] == weights[length - 1 - v] + used
            else used == 1
  {
  }

  // ----- rows

  lemma {:induction false} RowIsTheKept(length: nat, pops: seq<int>, n: nat)
    ensures var row := Row(length, pops, n);
            && (forall i :: i in row <==> 0 <= i < n && Kept(length, pops, i))
            && (forall a, b :: 0 <= a < b < |row| ==> row[a] < row[b])
  {
    if n > 0 {
      RowIsTheKept(length, pops, n - 1);
    }
  }

  lemma {:induction false} OneMorePop(length: nat, pops: seq<int>, p: int, n: nat)
    requires 0 <= p < length - 1 - p && Kept(length, pops, p)
    ensures |Row(length, pops + [p], n)| ==
            |Row(length, pops, n)| - (if p < n then 1 else 0) - (if length - 1 - p < n then 1 else 0)
  {
    if n > 0 {
      OneMorePop(length, pops, p, n - 1);
    }
  }

  lemma {:induction false} RowLength(length: nat, pops: seq<int>)
    requires forall j :: 0 <= j < |pops| ==> 0 <= pops[j] < Side(length)
    requires forall i, j :: 0 <= i < j < |pops| ==> pops[i] != pops[j]
    ensures |Row(length, pops, length)| == length - 2 * |pops|
  {
    if pops == [] {
      FullRow(length, length);
    } else {
      var before, p := pops[..|pops| - 1], pops[|pops| - 1];
      RowLength(length, before);
      OneMorePop(length, before, p, length);
      assert before + [p] == pops;
    }
  }

  lemma {:induction false} FullRow(length: nat, n: nat)
    ensures Row(length, [], n) == seq(n, i => i)
  {
    if n > 0 {
      FullRow(length, n - 1);
    }
  }

  /** The indices that shard `shard` of a set with `replicas` members uses out of `length`. */
  ghost function ShardRow(length: nat, replicas: int, shards: int, shard: nat): seq<int>
    requires 0 <= Side(length) - Side(replicas) <= Side(length)
  {
    Row(length, ShardPops(Side(length), Side(length) - Side(replicas), shards == 1, shard), length)
  }

  /** A row is an increasing, mirror-symmetric choice of elements that keeps the middle, with as
      many entries as replicas when the two counts have the same parity, one fewer when the elements
      are odd and the replicas even, and one more the other way round. */
  lemma RowShape(length: nat, replicas: nat, shards: int, shard: nat)
    requires 1 <= replicas <= length && shard < shards
    ensures 0 <= Side(length) - Side(replicas) <= Side(length)
    ensures MirrorShape(length, ShardRow(length, replicas, shards, shard))
    ensures |ShardRow(length, replicas, shards, shard)| ==
            if length % 2 == replicas % 2 then replicas
            else if length % 2 == 1 then replicas - 1 else replicas + 1
  {
    SidesFit(length, replicas);
    ShapeOfPops(length, Side(length) - Side(replicas), shards == 1, shard);
  }

  ghost predicate MirrorShape(length: nat, row: seq<int>) {
    && (forall a, b :: 0 <= a < b < |row| ==> row[a] < row[b])
    && (forall i :: i in row <==> length - 1 - i in row)
    && (forall i :: Side(length) <= i < length - Side(length) ==> i in row)
  }

  lemma ShapeOfPops(length: nat, extra: nat, single: bool, shard: nat)
    requires length > 0 && extra <= Side(length) && (single ==> shard == 0)
    ensures MirrorShape(length, Row(length, ShardPops(Side(length), extra, single, shard), length))
    ensures |Row(length, ShardPops(Side(length), extra, single, shard), length)| == length - 2 * extra
  {
    var pops := ShardPops(Side(length), extra, single, shard);
    PopsDistinct(Side(length), extra, single, shard);
    RowLength(length, pops);
    KeptShape(length, pops);
  }

  lemma SidesFit(length: nat, replicas: nat)
    requires 1 <= replicas <= length
    ensures 0 <= Side(length) - Side(replicas) <= Side(length)
    ensures length - 2 * (Side(length) - Side(replicas)) ==
            if length % 2 == replicas % 2 then replicas
            else if length % 2 == 1 then replicas - 1 else replicas + 1
  {
  }

  lemma KeptShape(length: nat, pops: seq<int>)
    requires length > 0 && forall j :: 0 <= j < |pops| ==> 0 <= pops[j] < Side(length)
    ensures MirrorShape(length, Row(length, pops, length))
  {
    var row := Row(length, pops, length);
    RowIsTheKept(length, pops, length);
    forall i
      ensures i in row <==> length - 1 - i in row
    {
      assert Kept(length, pops, i) <==> Kept(length, pops, length - 1 - i);
    }
    forall i | Side(length) <= i < length - Side(length)
      ensures i in row
    {
      assert Kept(length, pops, i);
    }
  }

  lemma {:induction false} RowValuesFollowRow(values: seq<string>, pops: seq<int>, n: nat)
    requires n <= |values| && forall i :: 0 <= i < |values| ==> values[i] != ""
    ensures |RowValues(values, pops, n)| == |Row(|values|, pops, n)|
    ensures forall r :: 0 <= r < |Row(|values|, pops, n)| ==>
              RowValues(values, pops, n)[r] == values[Row(|values|, pops, n)[r]]
  {
    if n > 0 {
      RowValuesFollowRow(values, pops, n - 1);
    }
  }

  ghost predicate Named(elements: seq<Element>) {
    forall i :: 0 <= i < |elements| ==> elements[i].value != ""
  }

  /** With named elements a call picks the element at the shard's row entry, so which elements are
      picked depends on the number of elements and never on their names. */
  lemma PickIsRowEntry(elements: seq<Element>, replicas: nat, replica: nat, shards: int, shard: nat)
    requires Named(elements) && 1 <= replicas <= |elements| && shard < shards && replica < replicas
    ensures 0 <= Side(|elements|) - Side(replicas) <= Side(|elements|)
    ensures var row := ShardRow(|elements|, replicas, shards, shard);
            Distribution(elements, replicas, replica, shards, shard) ==
            if replica < |row| then Success((elements[replica].key, elements[row[replica]].value)) else Failure
  {
    RowShape(|elements|, replicas, shards, shard);
    var pops := ShardPops(Side(|elements|), Side(|elements|) - Side(replicas), shards == 1, shard);
    RowValuesFollowRow(Values(elements), pops, |elements|);
    RowIsTheKept(|elements|, pops, |elements|);
  }

  /** Every replica of every shard is served exactly when it is not the case that the elements are
      odd in number and the replicas even. Validation guarantees that only outside the DR schema. */
  lemma EveryReplicaServed(elements: seq<Element>, replicas: nat, shards: nat)
    requires Named(elements) && 1 <= replicas <= |elements| && shards >= 1
    ensures (forall replica: nat, shard: nat :: replica < replicas && shard < shards ==>
               Distribution(elements, replicas, replica, shards, shard).Success?) <==>
            !(|elements| % 2 == 1 && replicas % 2 == 0)
  {
    forall replica: nat, shard: nat | replica < replicas && shard < shards
      ensures Distribution(elements, replicas, replica, shards, shard).Success? <==>
              replica < replicas - (if |elements| % 2 == 1 && replicas % 2 == 0 then 1 else 0)
    {
      RowShape(|elements|, replicas, shards, shard);
      PickIsRowEntry(elements, replicas, replica, shards, shard);
    }
    if |elements| % 2 == 1 && replicas % 2 == 0 {
      assert !Distribution(elements, replicas, replicas - 1, shards, 0).Success?;
    }
  }

  // ----- adding shards

  /** Raising the shard count from two or more keeps the rows of the existing shards. Raising it from
      one keeps the row of the first shard only when no pair is left out, or every pair is. */
  lemma RowsWhenShardsAreAdded(length: nat, replicas: nat, few: nat, many: nat)
    requires 1 <= replicas <= length && 1 <= few < many
    ensures 0 <= Side(length) - Side(replicas) <= Side(length)
    ensures (forall shard: nat :: shard < few ==>
               ShardRow(length, replicas, few, shard) == ShardRow(length, replicas, many, shard)) <==>
            few >= 2 || Side(replicas) == Side(length) || Side(replicas) == 0
  {
    if few == 1 {
      LoneRow(length, replicas, many);
    }
  }

  lemma LoneRow(length: nat, replicas: nat, many: nat)
    requires 1 <= replicas <= length && 1 < many
    ensures 0 <= Side(length) - Side(replicas) <= Side(length)
    ensures ShardRow(length, replicas, 1, 0) == ShardRow(length, replicas, many, 0) <==>
            Side(replicas) == Side(length) || Side(replicas) == 0
  {
    var side, extra := Side(length), Side(length) - Side(replicas);
    var lone, first := ShardPops(side, extra, true, 0), ShardPops(side, extra, false, 0);
    FirstPops(side, extra);
    if 0 < extra < side {
      RowIsTheKept(length, lone, length);
      RowIsTheKept(length, first, length);
      assert first[0] == 0 && Kept(length, lone, 0) && !Kept(length, first, 0);
    } else {
      SamePopsSameRow(length, lone, first, length);
    }
  }

  /** A lone shard gives up the last pairs, the first of several shards the first pairs. */
  lemma FirstPops(side: nat, extra: nat)
    requires extra <= side
    ensures forall i :: i in ShardPops(side, extra, true, 0) <==> side - extra <= i < side
    ensures forall i :: i in ShardPops(side, extra, false, 0) <==> 0 <= i < extra
    ensures extra > 0 ==> ShardPops(side, extra, false, 0)[0] == 0
  {
    PopsOfLoneShard(side, extra);
    var lone := ShardPops(side, extra, true, 0);
    forall i | side - extra <= i < side
      ensures i in lone
    {
      assert lone[side - 1 - i] == i;
    }
    if extra > 0 {
      WeightsAreTwoLevel(side, extra, 0);
      PopsOfTwoLevel(side, 0, 0, extra);
      RotationMembers(side, 0, extra);
    }
  }

  lemma {:induction false} SamePopsSameRow(length: nat, a: seq<int>, b: seq<int>, n: nat)
    requires forall i :: i in a <==> i in b
    ensures Row(length, a, n) == Row(length, b, n)
  {
    if n > 0 {
      SamePopsSameRow(length, a, b, n - 1);
    }
  }

  // ----- the code

  method IntArrWithValues(size: nat, v: int) returns (a: array<int>)
    ensures fresh(a) && a.Length == size && a[..] == seq(size, _ => v)
  {
    a := new int[size];
    for i := 0 to size
      invariant forall j :: 0 <= j < i ==> a[j] == v
    {
      a[i] := v;
    }
  }

  /** `__max`; -1 stands for no choice, which non-negative weights exclude while a pair is left. */
  method Max(weights: array<int>, popped: array<int>, shards: int) returns (best: int)
    ensures best != -1 ==> Heaviest(weights[..], popped[..], shards == 1, best)
    ensures best == -1 <==> forall i :: 0 <= i < weights.Length && i !in popped[..] ==> weights[i] <= -1
  {
    best := -1;
    var bestWeight := -1;
    if shards != 1 {
      for x := 0 to weights.Length
        invariant best == -1 || (0 <= best < x && best !in popped[..])
        invariant best == -1 ==> bestWeight == -1
        invariant best != -1 ==> bestWeight == weights[best] > -1
        invariant forall i :: 0 <= i < x && i !in popped[..] ==> weights[i] <= bestWeight
        invariant best != -1 ==> forall i :: 0 <= i < best && i !in popped[..] ==> weights[i] < bestWeight
      {
        if x !in popped[..] && weights[x] > bestWeight {
          bestWeight := weights[x];
          best := x;
        }
      }
    } else {
      for x := weights.Length downto 0
        invariant best == -1 || (x <= best < weights.Length && best !in popped[..])
        invariant best == -1 ==> bestWeight == -1
        invariant best != -1 ==> bestWeight == weights[best] > -1
        invariant forall i :: x <= i < weights.Length && i !in popped[..] ==> weights[i] <= bestWeight
        invariant best != -1 ==> forall i :: best < i < weights.Length && i !in popped[..] ==> weights[i] < bestWeight
      {
        if x !in popped[..] && weights[x] > bestWeight {
          bestWeight := weights[x];
          best := x;
        }
      }
    }
  }

  /** The choice exists for every pop up to the number of pairs, and none is left after that. */
  ghost predicate Poppable(weights: seq<int>, single: bool) {
    forall n: nat :: n <= |weights| ==> PoppableAt(weights, single, n)
  }

  ghost predicate PoppableAt(weights: seq<int>, single: bool, n: nat) {
    var popped := Pops(weights, n, single);
    && (n < |weights| ==> exists best :: Heaviest(weights, popped, single, best) && weights[best] >= 0)
    && (n == |weights| ==> forall i :: 0 <= i < |weights| ==> i in popped)
  }

  lemma WeightsPoppable(side: nat, extra: nat, single: bool, k: nat)
    requires (single ==> k == 0) && (extra <= side || k == 0)
    ensures Poppable(Weights(side, extra, single, k), single)
  {
    var w := Weights(side, extra, single, k);
    forall n: nat | n <= side
      ensures PoppableAt(w, single, n)
    {
      if single {
        assert w == seq(side, _ => 0);
        LonePickAvailable(side, n);
      } else if k == 0 {
        assert w == TwoLevel(side, 0, 0);
        ManyPickAvailable(side, 0, 0, n);
      } else if side > 0 {
        WeightsAreTwoLevel(side, extra, k);
        CursorBelow(side, extra, k);
        var (laps, at) := Cursor(side, extra, k);
        ManyPickAvailable(side, k - laps, at, n);
      }
    }
  }

  lemma LonePickAvailable(side: nat, n: nat)
    requires n <= side
    ensures var w := seq(side, _ => 0); var popped := Pops(w, n, true);
            && (n < side ==> Heaviest(w, popped, true, side - 1 - n))
            && (n == side ==> forall i :: 0 <= i < side ==> i in popped)
  {
    PopsOfZeros(side, n);
    var popped := Pops(seq(side, _ => 0), n, true);
    forall i | side - n <= i < side
      ensures i in popped
    {
      assert popped[side - 1 - i] == i;
    }
  }

  lemma ManyPickAvailable(side: nat, level: int, at: nat, n: nat)
    requires n <= side && (side > 0 ==> at < side) && level >= (if at > 0 then 1 else 0)
    ensures var w := TwoLevel(side, level, at); var popped := Pops(w, n, false);
            && (n < side ==> exists best :: Heaviest(w, popped, false, best) && w[best] >= 0)
            && (n == side ==> forall i :: 0 <= i < side ==> i in popped)
  {
    if side > 0 {
      PopsOfTwoLevel(side, level, at, n);
      RotationMembers(side, at, n);
      if n < side {
        NextOfTwoLevel(side, level, at, n);
      }
    }
  }

  lemma {:induction false} CursorBelow(side: nat, extra: nat, k: nat)
    requires 0 < side && extra <= side
    ensures var (laps, at) := Cursor(side, extra, k); laps + (if at > 0 then 1 else 0) <= k
  {
    if k > 0 {
      CursorBelow(side, extra, k - 1);
    }
  }

  lemma BlanksAreNoPops(weights: seq<int>, pops: seq<int>, popped: seq<int>, single: bool)
    requires |pops| <= |popped| && popped[..|pops|] == pops
    requires forall j :: |pops| <= j < |popped| ==> popped[j] == -1
    ensures forall best :: Heaviest(weights, popped, single, best) <==> Heaviest(weights, pops, single, best)
    ensures forall i :: 0 <= i ==> (i in popped <==> i in pops)
  {
    assert popped == pops + popped[|pops|..];
  }

  /** One pop; fails where the code would index with -1, that is when no pair is left. */
  method PopNext(weights: array<int>, nodes: array<string>, popped: array<int>, node: nat, shards: int)
    returns (ok: bool)
    requires weights != popped && node < popped.Length
    requires weights.Length == Side(nodes.Length) && node <= weights.Length
    requires PoppableAt(weights[..], shards == 1, node)
    requires popped[..node] == Pops(weights[..], node, shards == 1)
    requires forall j :: node <= j < popped.Length ==> popped[j] == -1
    modifies nodes, popped
    ensures ok <==> node < weights.Length
    ensures ok ==> popped[..] == old(popped[..])[node := popped[node]]
    ensures ok ==> popped[..node + 1] == Pops(weights[..], node + 1, shards == 1)
    ensures ok ==> forall i :: 0 <= i < nodes.Length ==>
              nodes[i] == if i == popped[node] || nodes.Length - 1 - i == popped[node] then "" else old(nodes[i])
  {
    ghost var pops := popped[..node];
    BlanksAreNoPops(weights[..], pops, popped[..], shards == 1);
    var popIndex := Max(weights, popped, shards);
    if popIndex == -1 {
      return false;
    }
    NextPopIs(weights[..], pops, shards == 1, popIndex);
    popped[node] := popIndex;
    nodes[popIndex] := "";
    nodes[nodes.Length - 1 - popIndex] := "";
    assert popped[..node + 1] == pops + [popIndex];
    return true;
  }

  /** The inner pop loop: blanks both elements of every popped pair. */
  method PopSides(weights: array<int>, nodes: array<string>, extra: nat, shards: int)
    returns (ok: bool, popped: array<int>)
    requires weights.Length == Side(nodes.Length) && Poppable(weights[..], shards == 1)
    modifies nodes
    ensures fresh(popped)
    ensures ok <==> extra <= weights.Length
    ensures ok ==> popped[..] == Pops(weights[..], extra, shards == 1)
    ensures ok ==> forall i :: 0 <= i < nodes.Length ==>
              nodes[i] == if Kept(nodes.Length, popped[..], i) then old(nodes[i]) else ""
  {
    popped := IntArrWithValues(extra, -1);
    for node := 0 to extra
      invariant node <= weights.Length && weights[..] == old(weights[..])
      invariant popped[..node] == Pops(weights[..], node, shards == 1)
      invariant forall j :: node <= j < extra ==> popped[j] == -1
      invariant forall i :: 0 <= i < nodes.Length ==>
                  nodes[i] == if Kept(nodes.Length, popped[..node], i) then old(nodes[i]) else ""
    {
      assert PoppableAt(weights[..], shards == 1, node);
      ghost var pops := popped[..node];
      ok := PopNext(weights, nodes, popped, node, shards);
      if !ok {
        return;
      }
      assert popped[..node + 1] == pops + [popped[node]];
    }
    assert popped[..extra] == popped[..];
    ok := true;
  }

  method ChargeKept(weights: array<int>, popped: array<int>)
    requires weights != popped
    modifies weights
    ensures weights[..] == Charge(old(weights[..]), popped[..])
  {
    for i := 0 to weights.Length
      invariant popped[..] == old(popped[..])
      invariant forall j :: 0 <= j < i ==> weights[j] == Charge(old(weights[..]), popped[..])[j]
      invariant forall j :: i <= j < weights.Length ==> weights[j] == old(weights[j])
    {
      if i !in popped[..] {
        weights[i] := weights[i] + 1;
      }
    }
  }

  function NonEmpty(s: seq<string>): seq<string> {
    if s == [] then [] else
      NonEmpty(s[..|s| - 1]) + (if s[|s| - 1] != "" then [s[|s| - 1]] else [])
  }

  method KeepNonEmpty(nodes: array<string>) returns (row: seq<string>)
    ensures row == NonEmpty(nodes[..])
  {
    row := [];
    for x := 0 to nodes.Length
      invariant row == NonEmpty(nodes[..x])
    {
      assert nodes[..x + 1][..x] == nodes[..x];
      if nodes[x] != "" {
        row := row + [nodes[x]];
      }
    }
    assert nodes[..nodes.Length] == nodes[..];
  }

  /** Blanking the popped elements and dropping the blanks leaves the row. */
  lemma {:induction false} BlankedIsRow(values: seq<string>, pops: seq<int>, nodes: seq<string>, n: nat)
    requires n <= |nodes| == |values|
    requires forall i :: 0 <= i < |nodes| ==> nodes[i] == if Kept(|values|, pops, i) then values[i] else ""
    ensures NonEmpty(nodes[..n]) == RowValues(values, pops, n)
  {
    if n > 0 {
      BlankedIsRow(values, pops, nodes, n - 1);
      assert nodes[..n][..n - 1] == nodes[..n - 1];
    }
  }

  /** The body of the shard loop. */
  method NextRow(elements: seq<Element>, weights: array<int>, extra: nat, shards: int)
    returns (ok: bool, row: seq<string>)
    requires weights.Length == Side(|elements|) && Poppable(weights[..], shards == 1)
    modifies weights
    ensures ok <==> extra <= weights.Length
    ensures ok ==> row == RowValues(Values(elements), Pops(old(weights[..]), extra, shards == 1), |elements|)
    ensures ok ==> weights[..] == Charge(old(weights[..]), Pops(old(weights[..]), extra, shards == 1))
  {
    var nodes := new string[|elements|](i requires 0 <= i < |elements| => elements[i].value);
    var popped;
    ok, popped := PopSides(weights, nodes, extra, shards);
    if !ok {
      return false, [];
    }
    ChargeKept(weights, popped);
    row := KeepNonEmpty(nodes);
    BlankedIsRow(Values(elements), popped[..], nodes[..], |elements|);
    assert nodes[..][..|elements|] == nodes[..];
  }

  lemma WeightsStep(side: nat, extra: nat, single: bool, k: nat)
    ensures Weights(side, extra, single, k + 1) ==
            Charge(Weights(side, extra, single, k), ShardPops(side, extra, single, k))
  {
  }

  /** The rows of the first shards, and the weights after them. */
  ghost predicate RowsSoFar(elements: seq<Element>, extra: nat, single: bool, rows: seq<seq<string>>, w: seq<int>) {
    && w == Weights(Side(|elements|), extra, single, |rows|)
    && forall k: nat :: k < |rows| ==> rows[k] == ShardValues(elements, extra, single, k)
  }

  lemma OneMoreRow(elements: seq<Element>, extra: nat, single: bool, rows: seq<seq<string>>, w: seq<int>, row: seq<string>)
    requires RowsSoFar(elements, extra, single, rows, w)
    requires row == RowValues(Values(elements), Pops(w, extra, single), |elements|)
    ensures RowsSoFar(elements, extra, single, rows + [row], Charge(w, Pops(w, extra, single)))
  {
    WeightsStep(Side(|elements|), extra, single, |rows|);
    assert row == ShardValues(elements, extra, single, |rows|);
  }

  /** The shard loop; it fails on the first shard or not at all. */
  method AllRows(elements: seq<Element>, extra: nat, shards: int) returns (ok: bool, result: seq<seq<string>>)
    ensures ok <==> shards <= 0 || extra <= Side(|elements|)
    ensures ok ==> |result| == if shards < 0 then 0 else shards
    ensures ok ==> forall k: nat :: k < |result| ==> result[k] == ShardValues(elements, extra, shards == 1, k)
  {
    var side := Side(|elements|);
    var weights := IntArrWithValues(side, 0);
    result := [];
    ghost var w := weights[..];
    while |result| < shards
      invariant |result| > 0 ==> |result| <= shards && extra <= side
      invariant fresh(weights) && weights.Length == side && weights[..] == w
      invariant RowsSoFar(elements, extra, shards == 1, result, w)
    {
      WeightsPoppable(side, extra, shards == 1, |result|);
      var row;
      ok, row := NextRow(elements, weights, extra, shards);
      if !ok {
        return;
      }
      OneMoreRow(elements, extra, shards == 1, result, w, row);
      w := weights[..];
      result := result + [row];
    }
    ok := true;
  }

  method ElementsDistribution(elements: seq<Element>, replicas: int, replica: int, shards: int, shard: int)
    returns (r: Result<(string, string)>)
    ensures r == Distribution(elements, replicas, replica, shards, shard)
  {
    var extra := Side(|elements|) - Side(replicas);
    if shards > 0 && extra < 0 {
      return Failure;
    }
    var ok, result := AllRows(elements, if extra < 0 then 0 else extra, shards);
    if !(ok && 0 <= replica < |elements| && 0 <= shard < |result| && replica < |result[shard]|) {
      return Failure;
    }
    return Success((elements[replica].key, result[shard][replica]));
  }

  const HOST_NAME_KEY := "kubernetes.io/hostname"

  function DummyPvcMap(pvcNames: seq<string>): seq<Element> {
    seq(|pvcNames|, i requires 0 <= i < |pvcNames| => Element(HOST_NAME_KEY, pvcNames[i]))
  }

  ghost function NodeSelector(elements: seq<Element>, replicas: int, replica: int, shards: int, shard: int)
    : Result<map<string, string>>
  {
    if |elements| < 1 then Success(map[]) else
      match Distribution(elements, replicas, replica, shards, shard)
      case Success(pick) => Success(map[pick.0 := pick.1])
      case Failure => Failure
  }

  /** With named nodes the selector asks for the key of the node at the replica's own place with the name of
      the node at its row entry; a replica past the end of its row has none, and the call panics. Without
      nodes nothing is asked for. */
  lemma SelectorIsRowEntry(nodes: seq<Element>, replicas: nat, replica: nat, shards: int, shard: nat)
    requires Named(nodes) && 1 <= replicas <= |nodes| && shard < shards && replica < replicas
    ensures 0 <= Side(|nodes|) - Side(replicas) <= Side(|nodes|)
    ensures var row := ShardRow(|nodes|, replicas, shards, shard);
            NodeSelector(nodes, replicas, replica, shards, shard) ==
            if replica < |row| then Success(map[nodes[replica].key := nodes[row[replica]].value]) else Failure
  {
    PickIsRowEntry(nodes, replicas, replica, shards, shard);
  }

  /** `MongoReplicaNodeSelector`: no label without elements, otherwise the allocator's pick. */
  method ReplicaNodeSelector(elements: seq<Element>, replicas: int, replica: int, shards: int, shard: int)
    returns (r: Result<map<string, string>>)
    ensures r == NodeSelector(elements, replicas, replica, shards, shard)
    ensures elements == [] ==> r == Success(map[])
    ensures Named(elements) && 1 <= replicas <= |elements| && 0 <= replica < replicas && 0 <= shard < shards ==>
              0 <= Side(|elements|) - Side(replicas) <= Side(|elements|) &&
              var row := ShardRow(|elements|, replicas, shards, shard);
              r == if replica < |row| then Success(map[elements[replica].key := elements[row[replica]].value]) else Failure
  {
    if Named(elements) && 1 <= replicas <= |elements| && 0 <= replica < replicas && 0 <= shard < shards {
      SelectorIsRowEntry(elements, replicas, replica, shards, shard);
    }
    if |elements| < 1 {
      return Success(map[]);
    }
    var pick := ElementsDistribution(elements, replicas, replica, shards, shard);
    match pick {
      case Success(chosen) => r := Success(map[chosen.0 := chosen.1]);
      case Failure => r := Failure;
    }
  }
}
