/** Temporary role grants. Every section of `RunWithGrants` or `RunWithClusterGrants` grants a role to
    the one service user, runs its body, and revokes the role; sections of concurrent requests and of
    background redistributions interleave freely. This follows one role on one database. */
module Grants {

  /** A grant or revoke command of section `id`: what it reported, and whether it took effect. */
  datatype Event =
    | Grant(id: nat, reported: bool, applied: bool)
    | Revoke(id: nat, reported: bool, applied: bool)

  type Trace = seq<Event>

  /** The user holds the role: a set of roles does not count how often one was granted. */
  predicate Held(trace: Trace) {
    if trace == [] then false
    else
      match trace[|trace| - 1]
      case Grant(_, _, applied) => applied || Held(trace[..|trace| - 1])
      case Revoke(_, _, applied) => !applied && Held(trace[..|trace| - 1])
  }

  predicate Opened(trace: Trace, id: nat) {
    exists k :: 0 <= k < |trace| && trace[k].Grant? && trace[k].id == id && trace[k].reported
  }

  predicate Closed(trace: Trace, id: nat) {
    exists k :: 0 <= k < |trace| && trace[k].Revoke? && trace[k].id == id
  }

  /** The section's body may still be running, or its revocation is still to come. */
  predicate Open(trace: Trace, id: nat) {
    Opened(trace, id) && !Closed(trace, id)
  }

  /** Each section grants once, and revokes once, after a grant that reported success. */
  predicate WellFormed(trace: Trace) {
    trace == [] ||
    var before, e := trace[..|trace| - 1], trace[|trace| - 1];
    WellFormed(before) &&
    match e
    case Grant(id, _, _) => forall k :: 0 <= k < |before| ==> before[k].id != id
    case Revoke(id, _, _) => Open(before, id)
  }

  /** A grant that takes effect is reported, and revocations take effect. */
  ghost predicate Faithful(trace: Trace) {
    forall k :: 0 <= k < |trace| ==>
      match trace[k]
      case Grant(_, reported, applied) => applied ==> reported
      case Revoke(_, _, applied) => applied
  }

  /** What matters is the last command that took effect. */
  lemma {:induction false} HeldIffLastEffectiveIsGrant(trace: Trace)
    ensures Held(trace) <==> exists k :: 0 <= k < |trace| && trace[k].Grant? && trace[k].applied && NoRevokeAfter(trace, k)
  {
    if trace != [] {
      var before, n := trace[..|trace| - 1], |trace| - 1;
      HeldIffLastEffectiveIsGrant(before);
      if trace[n].Grant? && trace[n].applied {
        assert NoRevokeAfter(trace, n);
      } else if trace[n].applied {
        assert forall k :: 0 <= k < n ==> !NoRevokeAfter(trace, k);
      } else {
        forall k | 0 <= k < n
          ensures NoRevokeAfter(trace, k) <==> NoRevokeAfter(before, k)
        {
          if NoRevokeAfter(trace, k) {
            forall j | k < j < |before|
              ensures !(before[j].Revoke? && before[j].applied)
            {
              assert before[j] == trace[j];
            }
          }
        }
        if k :| 0 <= k < |before| && before[k].Grant? && before[k].applied && NoRevokeAfter(before, k) {
          assert trace[k] == before[k];
        }
      }
    }
  }

  predicate NoRevokeAfter(trace: Trace, k: int) {
    forall j :: k < j < |trace| && 0 <= j ==> !(trace[j].Revoke? && trace[j].applied)
  }

  /** No leaked grants: while grants that take effect are reported and revocations take effect, the user holds the role
      only while some section is open. So once every section is finished the role is gone. */
  lemma HeldOnlyWhileOpen(trace: Trace)
    requires WellFormed(trace) && Faithful(trace) && Held(trace)
    ensures exists id :: Open(trace, id)
  {
    HeldIffLastEffectiveIsGrant(trace);
    var k :| 0 <= k < |trace| && trace[k].Grant? && trace[k].applied && NoRevokeAfter(trace, k);
    var id := trace[k].id;
    assert trace[k].reported;
    forall j | 0 <= j < |trace| && trace[j].Revoke?
      ensures trace[j].id != id
    {
      if trace[j].id == id {
        RevokeFollowsGrant(trace, k, j);
      }
    }
    assert Open(trace, id);
  }

  /** In a well-formed trace a section's revocation comes after its grant. */
  lemma {:induction false} RevokeFollowsGrant(trace: Trace, k: int, j: int)
    requires WellFormed(trace) && 0 <= k < |trace| && 0 <= j < |trace|
    requires trace[k].Grant? && trace[j].Revoke? && trace[j].id == trace[k].id
    ensures k < j
  {
    var n := |trace| - 1;
    if k < n && j < n {
      RevokeFollowsGrant(trace[..n], k, j);
    }
  }

  /** A section keeps its role all the way exactly when nobody's revocation takes effect inside it. The
      grants are not counted, so a section that ends takes the role from all others. */
  lemma HeldThroughoutIff(trace: Trace, g: nat)
    requires g < |trace| && trace[g].Grant? && trace[g].applied
    ensures (forall n :: g < n <= |trace| ==> Held(trace[..n])) <==> NoRevokeAfter(trace, g)
  {
    if NoRevokeAfter(trace, g) {
      forall n | g < n <= |trace|
        ensures Held(trace[..n])
      {
        assert trace[..n][g] == trace[g];
        assert NoRevokeAfter(trace[..n], g);
        HeldIffLastEffectiveIsGrant(trace[..n]);
      }
    } else {
      var j :| g < j < |trace| && trace[j].Revoke? && trace[j].applied;
      assert trace[..j + 1][j] == trace[j];
      assert !Held(trace[..j + 1]);
    }
  }

  /** Two overlapping sections, say a foreground request and a background redistribution: when the
      first ends, the second is still open but no longer holds the role. */
  lemma OverlapLosesRole(a: nat, b: nat)
    requires a != b
    ensures var trace := [Grant(a, true, true), Grant(b, true, true), Revoke(a, true, true)];
            WellFormed(trace) && Faithful(trace) && Open(trace, b) && !Held(trace)
  {
    var trace := [Grant(a, true, true), Grant(b, true, true), Revoke(a, true, true)];
    var two := [Grant(a, true, true), Grant(b, true, true)];
    assert trace[..2] == two && two[..1] == [Grant(a, true, true)] && two[..1][..0] == [];
    assert WellFormed(two[..1]) && WellFormed(two);
    assert two[0].id == a && Open(two, a);
    assert trace[1] == Grant(b, true, true);
  }

  /** A grant that takes effect although its command reports an error is never revoked: the section
      does not even start. */
  lemma LostGrantLeaks(id: nat)
    ensures WellFormed([Grant(id, false, true)]) && Held([Grant(id, false, true)])
    ensures forall other :: !Open([Grant(id, false, true)], other)
  {
    assert [Grant(id, false, true)][..0] == [];
  }
}
