/**
 * The values the mail generator reads from the Team Foundation version
 * control client. The server itself is not modelled: its two queries are
 * given as total functions from their arguments to the result they return.
 */
module VersionControl {

  /** The bits of a `ChangeType` flag set; a pending change carries a set of them. */
  datatype ChangeBit = Add | Edit | Encoding | Rename | Delete | Undelete | Branch | Merge | Lock

  /** A check-in note field value: `CheckinNoteFieldValue.Name` and `.Value`. */
  datatype CheckinField = CheckinField(name: string, value: string)

  /** The work item behind a `WorkItemCheckinInfo`. */
  datatype WorkItem = WorkItem(id: int, title: string)

  /**
   * A shelveset. `serverUri` is `VersionControlServer.TeamFoundationServer.Uri`
   * as its `ToString()` prints it; a null `Comment` is the empty string.
   */
  datatype Shelveset = Shelveset(
    name: string,
    ownerName: string,
    comment: string,
    serverUri: string,
    checkinFields: seq<CheckinField>,
    workItems: seq<WorkItem>)

  /** One shelved pending change. */
  datatype PendingChange = PendingChange(
    changeTypeName: string,
    changeType: set<ChangeBit>,
    itemId: int,
    pendingChangeId: int,
    serverItem: string)

  datatype PendingSet = PendingSet(pendingChanges: seq<PendingChange>)

  /**
   * The version control server as the generator sees it: what
   * `QueryShelvesets(name, owner)` and `QueryShelvedChanges(shelveset)` return.
   */
  datatype VersionControlServer = VersionControlServer(
    queryShelvesets: (string, string) -> seq<Shelveset>,
    queryShelvedChanges: Shelveset -> seq<PendingSet>)

  /** The pending changes of all pending sets, in the order the nested loops visit them. */
  function Flatten(sets: seq<PendingSet>): seq<PendingChange>
    decreases |sets|
  {
    if sets == [] then []
    else Flatten(sets[..|sets| - 1]) + sets[|sets| - 1].pendingChanges
  }

  /** Flattening distributes over concatenation, so no pending change is reordered. */
  lemma {:induction false} FlattenAppend(a: seq<PendingSet>, b: seq<PendingSet>)
    ensures Flatten(a + b) == Flatten(a) + Flatten(b)
    decreases |b|
  {
    if b == [] {
      assert a + b == a;
    } else {
      assert (a + b)[..|a + b| - 1] == a + b[..|b| - 1];
      FlattenAppend(a, b[..|b| - 1]);
    }
  }

  /** Flattening one more pending set appends its changes. */
  lemma FlattenStep(sets: seq<PendingSet>, k: nat)
    requires k < |sets|
    ensures Flatten(sets[..k + 1]) == Flatten(sets[..k]) + sets[k].pendingChanges
  {
    assert sets[..k + 1][..k] == sets[..k];
  }

  /** The flattened sequence is the first set's changes followed by the rest, flattened. */
  lemma FlattenCons(sets: seq<PendingSet>)
    requires sets != []
    ensures Flatten(sets) == sets[0].pendingChanges + Flatten(sets[1..])
  {
    FlattenAppend([sets[0]], sets[1..]);
    assert [sets[0]] + sets[1..] == sets;
    assert Flatten([sets[0]]) == Flatten([]) + sets[0].pendingChanges;
  }
}
