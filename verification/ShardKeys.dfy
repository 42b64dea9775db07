/** Requested shard keys, the key documents stored by the server, and how the two are compared. */
module ShardKeys {
  import opened Wrappers

  datatype ShardKeyField = ShardKeyField(field: string, hashed: bool)

  /** The BSON values that matter when a stored key is read back. */
  datatype Bson = Int32(i: int) | Int64(l: int) | Double(d: real) | Str(s: string) | Other

  /** An element of `bson.D`. */
  datatype Element = Element(key: string, value: Bson)

  type KeyDoc = seq<Element>

  // ----- meaning of a stored key

  /** The field an element stands for, or nothing for an element this service never writes. */
  function Meaning(e: Element): Option<ShardKeyField> {
    match e.value
    case Int32(n) => if n == 1 then Some(ShardKeyField(e.key, false)) else None
    case Int64(n) => if n == 1 then Some(ShardKeyField(e.key, false)) else None
    case Double(r) => if r == 1.0 then Some(ShardKeyField(e.key, false)) else None
    case Str(s) => if s == "hashed" then Some(ShardKeyField(e.key, true)) else None
    case Other => None
  }

  /** What counts as a requested field: the same name, with the string hashed or the number one in any
      numeric type, and no other value. */
  lemma MeaningSpelled(e: Element, f: ShardKeyField)
    ensures Meaning(e) == Some(f) <==>
            e.key == f.field && (if f.hashed then e.value == Str("hashed") else e.value in {Int32(1), Int64(1), Double(1.0)})
  {
  }

  function Meanings(doc: KeyDoc): seq<Option<ShardKeyField>> {
    seq(|doc|, i requires 0 <= i < |doc| => Meaning(doc[i]))
  }

  function Wanted(fields: seq<ShardKeyField>): seq<Option<ShardKeyField>> {
    seq(|fields|, i requires 0 <= i < |fields| => Some(fields[i]))
  }

  // ----- the comparisons

  /** `keyFieldEqual`. */
  function KeyFieldEqual(a: Element, b: ShardKeyField): (r: bool)
    ensures r <==> Meaning(a) == Some(b)
  {
    if a.key != b.field then false
    else if b.hashed then a.value.Str? && a.value.s == "hashed"
    else match a.value
      case Int32(v) => v == 1
      case Int64(v) => v == 1
      case Double(v) => v == 1.0
      case _ => false
  }

  /** `isPrefix`: the requested fields are a prefix of what the stored key means. */
  method IsPrefix(shorter: seq<ShardKeyField>, longer: KeyDoc) returns (r: bool)
    ensures r <==> Wanted(shorter) <= Meanings(longer)
  {
    if |shorter| > |longer| {
      return false;
    }
    for i := 0 to |shorter|
      invariant forall k :: 0 <= k < i ==> KeyFieldEqual(longer[k], shorter[k])
    {
      if !KeyFieldEqual(longer[i], shorter[i]) {
        assert Wanted(shorter)[i] != Meanings(longer)[i];
        return false;
      }
    }
    r := true;
  }

  /** `shardKeyMatches`: exact when the request is a prefix of the current key, refinable when the
      current key is a strict prefix of the request; never both. */
  method ShardKeyMatches(current: KeyDoc, requested: seq<ShardKeyField>) returns (exact: bool, needsRefine: bool)
    ensures exact <==> Wanted(requested) <= Meanings(current)
    ensures needsRefine <==> Meanings(current) < Wanted(requested)
    ensures !(exact && needsRefine)
  {
    if |current| == |requested| {
      exact := IsPrefix(requested, current);
      needsRefine := false;
    } else if |current| < |requested| {
      exact := false;
      needsRefine := IsPrefix(requested[..|current|], current);
      assert Wanted(requested[..|current|]) == Wanted(requested)[..|current|];
    } else {
      exact := IsPrefix(requested, current);
      needsRefine := false;
    }
  }

  // ----- writing a key and reading it back

  /** The document `buildShardKeyDoc` sends; its number is written as a Go int. */
  function KeyDocOf(fields: seq<ShardKeyField>): KeyDoc {
    seq(|fields|, i requires 0 <= i < |fields| =>
      Element(fields[i].field, if fields[i].hashed then Str("hashed") else Int32(1)))
  }

  method BuildShardKeyDoc(fields: seq<ShardKeyField>) returns (doc: KeyDoc)
    ensures doc == KeyDocOf(fields)
  {
    doc := [];
    for k := 0 to |fields|
      invariant doc == KeyDocOf(fields[..k])
    {
      assert fields[..k + 1] == fields[..k] + [fields[k]];
      doc := doc + [Element(fields[k].field, if fields[k].hashed then Str("hashed") else Int32(1))];
    }
    assert fields[..|fields|] == fields;
  }

  /** The server may hand a number back in any numeric type. */
  predicate SameElement(sent: Element, stored: Element) {
    sent.key == stored.key &&
    (sent.value == stored.value ||
     (sent.value == Int32(1) && (stored.value == Int64(1) || stored.value == Double(1.0))))
  }

  predicate Stores(sent: KeyDoc, stored: KeyDoc) {
    |sent| == |stored| && forall i :: 0 <= i < |sent| ==> SameElement(sent[i], stored[i])
  }

  lemma StoredMeaning(fields: seq<ShardKeyField>, stored: KeyDoc)
    requires Stores(KeyDocOf(fields), stored)
    ensures Meanings(stored) == Wanted(fields)
  {
    forall i | 0 <= i < |fields|
      ensures Meanings(stored)[i] == Wanted(fields)[i]
    {
      assert SameElement(KeyDocOf(fields)[i], stored[i]);
    }
  }

  lemma WantedInjective(a: seq<ShardKeyField>, b: seq<ShardKeyField>)
    ensures Wanted(a) <= Wanted(b) <==> a <= b
  {
    if Wanted(a) <= Wanted(b) {
      forall i | 0 <= i < |a|
        ensures a[i] == b[i]
      {
        assert Wanted(a)[i] == Wanted(b)[i];
      }
    }
    if a <= b {
      assert Wanted(a) == Wanted(b)[..|a|];
    }
  }

  /** Round trip: what was written for one field list is found, whatever number type comes back, to
      match exactly the prefixes of that list and to be refinable to exactly its extensions. */
  lemma ReadBackMatches(written: seq<ShardKeyField>, stored: KeyDoc, asked: seq<ShardKeyField>)
    requires Stores(KeyDocOf(written), stored)
    ensures Wanted(asked) <= Meanings(stored) <==> asked <= written
    ensures Meanings(stored) < Wanted(asked) <==> written < asked
  {
    StoredMeaning(written, stored);
    WantedInjective(asked, written);
    WantedInjective(written, asked);
  }

  // ----- hashed fields

  function HashedFields(fields: seq<ShardKeyField>): nat {
    if fields == [] then 0 else
      HashedFields(fields[..|fields| - 1]) + (if fields[|fields| - 1].hashed then 1 else 0)
  }

  method HashedFieldCount(fields: seq<ShardKeyField>) returns (n: nat)
    ensures n == HashedFields(fields)
  {
    n := 0;
    for k := 0 to |fields|
      invariant n == HashedFields(fields[..k])
    {
      assert fields[..k + 1][..k] == fields[..k];
      if fields[k].hashed {
        n := n + 1;
      }
    }
    assert fields[..|fields|] == fields;
  }

  /** The documented rule: a key is acceptable when no two of its fields are hashed. */
  lemma {:induction false} AtMostOneHashed(fields: seq<ShardKeyField>)
    ensures HashedFields(fields) <= 1 <==>
            forall i, j :: 0 <= i < j < |fields| ==> !(fields[i].hashed && fields[j].hashed)
    ensures HashedFields(fields) == 0 <==> forall i :: 0 <= i < |fields| ==> !fields[i].hashed
  {
    if fields != [] {
      var n := |fields| - 1;
      AtMostOneHashed(fields[..n]);
      if i, j :| 0 <= i < j < n && fields[i].hashed && fields[j].hashed {
        assert fields[..n][i].hashed && fields[..n][j].hashed;
      }
      if i :| 0 <= i < n && fields[i].hashed {
        assert fields[..n][i].hashed;
      }
    }
  }
}
