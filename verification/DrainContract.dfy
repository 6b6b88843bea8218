/**
 The authorisation that a completed storage drain gives (ValidateTerminal in internal/storagecontract/contract.go).
 The hash of the three target sets is a parameter.
 */
module DrainContract {
  import opened Options
  import opened NodeIdentity
  import opened LayoutModel

  /** TargetHash: roles, removed storage, unavailable sources. */
  type TargetHash = (seq<string>, seq<string>, seq<string>) -> string

  /** validateActor. */
  predicate ActorMatches(actual: Actor, expected: Actor) {
    && Trim(expected.uid) != "" && actual == expected
    && Trim(actual.apiVersion) != "" && Trim(actual.kind) != "" && Trim(actual.namespace) != "" && Trim(actual.name) != ""
  }

  /** validateCanonicalNodeIDSet. */
  predicate IsIDSet(ids: seq<string>) {
    NormalizeNodeIDs(ids) == ids && forall i :: 0 <= i < |ids| ==> IsLowerNodeID(ids[i])
  }

  /** requireNodeIDs. */
  predicate HasAll(ids: seq<string>, required: seq<string>) {
    forall id :: id in NormalizeNodeIDs(required) ==> id in ids
  }

  predicate ValidTerminal(d: Drain, expected: Actor, roles: seq<string>, removed: seq<string>, hash: TargetHash) {
    && ActorMatches(d.actor, expected)
    && Trim(d.transactionID) != ""
    && d.startedAt != 0 && d.completedAt.Some? && d.completedAt.value != 0 && d.startedAt <= d.completedAt.value
    && IsIDSet(d.roleRemovalIDs) && IsIDSet(d.removedIDs) && IsIDSet(d.unavailableIDs)
    && (forall id :: id in d.removedIDs ==> id in d.roleRemovalIDs)
    && (forall id :: id in d.unavailableIDs ==> id in d.removedIDs)
    && d.targetHash == hash(d.roleRemovalIDs, d.removedIDs, d.unavailableIDs)
    && HasAll(d.roleRemovalIDs, roles) && HasAll(d.removedIDs, removed)
  }

  /** A strictly ascending list of valid IDs. */
  ghost predicate SortedIDs(ids: seq<string>) {
    Ascending(ids) && forall i :: 0 <= i < |ids| ==> IsLowerNodeID(ids[i])
  }

  /** The record of a drain that this actor began and finished, for three nested sets of IDs that its hash covers. */
  ghost predicate Completed(d: Drain, actor: Actor, hash: TargetHash) {
    && d.actor == actor
    && (forall f :: f in {actor.apiVersion, actor.kind, actor.namespace, actor.name, actor.uid, d.transactionID} ==> Trim(f) != "")
    && d.completedAt.Some? && 0 !in {d.startedAt, d.completedAt.value} && d.completedAt.value >= d.startedAt
    && SortedIDs(d.roleRemovalIDs) && SortedIDs(d.removedIDs) && SortedIDs(d.unavailableIDs)
    && (set id | id in d.unavailableIDs) <= (set id | id in d.removedIDs) <= (set id | id in d.roleRemovalIDs)
    && d.targetHash == hash(d.roleRemovalIDs, d.removedIDs, d.unavailableIDs)
  }

  /** The validation accepts the completed records of the actor that list every required ID in some spelling. */
  lemma TerminalExact(d: Drain, actor: Actor, roles: seq<string>, removed: seq<string>, hash: TargetHash)
    ensures ValidTerminal(d, actor, roles, removed, hash) <==>
            && Completed(d, actor, hash)
            && (forall id :: id != "" && Names(roles, id) ==> id in d.roleRemovalIDs)
            && (forall id :: id != "" && Names(removed, id) ==> id in d.removedIDs)
  {
    IDSetExact(d.roleRemovalIDs);
    IDSetExact(d.removedIDs);
    IDSetExact(d.unavailableIDs);
    NormalizeIsSet(roles);
    NormalizeIsSet(removed);
    NestedExact(d.removedIDs, d.roleRemovalIDs);
    NestedExact(d.unavailableIDs, d.removedIDs);
    hide IsIDSet, NormalizeNodeIDs, Canonical, Ascending, IsLowerNodeID, Trim, Names;
  }

  lemma NestedExact(small: seq<string>, large: seq<string>)
    ensures (forall id :: id in small ==> id in large) <==> (set id | id in small) <= (set id | id in large)
  {
    var a, b := (set id | id in small), (set id | id in large);
    assert forall id :: id in a <==> id in small;
    assert forall id :: id in b <==> id in large;
  }

  /** An ID set is a strictly ascending list of valid IDs, nothing more. */
  lemma IDSetExact(ids: seq<string>)
    ensures IsIDSet(ids) <==> SortedIDs(ids)
  {
    NormalExact(ids);
    forall i | 0 <= i < |ids| && IsLowerNodeID(ids[i]) ensures Canonical(ids[i]) == ids[i] && ids[i] != "" {
      ValidIsCanonical(ids[i]);
    }
    hide Canonical, IsLowerNodeID, NormalizeNodeIDs, Less;
  }

  /** In an ID set, being named in some spelling and being listed are the same. */
  lemma NamedIsListed(ids: seq<string>, id: string)
    requires IsIDSet(ids)
    ensures Names(ids, id) <==> id in ids
  {
    forall i | 0 <= i < |ids| ensures Canonical(ids[i]) == ids[i] { ValidIsCanonical(ids[i]); }
    hide Canonical, IsIDSet;
  }

  /** Requiring one canonical ID means that it is listed. */
  lemma HasOne(ids: seq<string>, id: string)
    requires Canonical(id) == id && id != ""
    ensures HasAll(ids, [id]) <==> id in ids
  {
    hide Canonical;
    assert NormalizeNodeIDs([id]) == [id];
  }
}
