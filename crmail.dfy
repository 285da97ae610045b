/**
 * `crmail.MailFromShelveset`: turns a shelveset into a code review mail,
 * its subject, recipients and HTML body.
 */
module Crmail {
  import opened Wrappers
  import opened Text
  import opened VersionControl
  import opened Render

  /** The shelveset a command-line token names; owner "." is the current user. */
  datatype ShelvesetRef = ShelvesetRef(name: string, owner: string)

  /**
   * How the constructor reads `name[;owner[;...]]`: the first piece of the
   * token split on ';' is the name, the second (possibly empty) the owner,
   * and without a ';' the owner is ".".
   */
  function ParseShelvesetRef(token: string): (r: ShelvesetRef)
    ensures ';' !in r.name && ';' !in r.owner
  {
    var parts := Split(token, ';');
    if |parts| > 1 then ShelvesetRef(parts[0], parts[1])
    else ShelvesetRef(parts[0], ".")
  }

  /** `GetShelveset` on the shelvesets the server returned for the requested name and owner. */
  function SelectShelveset(name: string, found: seq<Shelveset>): (r: Result<Shelveset, MailError>)
    ensures r.Err? <==> found == []
    ensures r.Err? ==> r.error == ShelvesetNotFound(name)
    ensures r.Ok? ==> r.value == found[0]
  {
    if |found| == 0 then Err(ShelvesetNotFound(name)) else Ok(found[0])
  }

  /** `string.Format("CR: <area> {0};{1}", Name, OwnerName)`. */
  function Subject(s: Shelveset): string {
    "CR: <area> " + s.name + ";" + s.ownerName
  }

  /** The mail item as the generator fills it; `to` and `cc` may be null. */
  datatype MailItem = MailItem(subject: string, to: Option<string>, cc: Option<string>, htmlBody: string)

  /**
   * The mail `GenerateMail` shows for shelveset `name` of `owner`, or the
   * exception that stops it before anything is shown.
   */
  function ComposeMail(res: Resources, vcs: VersionControlServer, name: string, owner: string,
                       crAlias: Option<string>, portSuffix: string): (r: Result<MailItem, MailError>)
    ensures vcs.queryShelvesets(name, owner) == [] <==> r == Err(ShelvesetNotFound(name))
    ensures r.Ok? <==>
      var found := vcs.queryShelvesets(name, owner);
      found != [] && forall c :: c in Flatten(vcs.queryShelvedChanges(found[0])) ==> Renderable(c)
    ensures r.Ok? ==>
      var s := vcs.queryShelvesets(name, owner)[0];
      r.value.subject == Subject(s) && r.value.to == Reviewer(s.checkinFields) &&
      r.value.cc == crAlias &&
      Ok(r.value.htmlBody) == MailBody(res, s, portSuffix, vcs.queryShelvedChanges(s))
  {
    match SelectShelveset(name, vcs.queryShelvesets(name, owner))
    case Err(e) => Err(e)
    case Ok(s) =>
      match MailBody(res, s, portSuffix, vcs.queryShelvedChanges(s))
      case Err(e) => Err(e)
      case Ok(body) => Ok(MailItem(Subject(s), Reviewer(s.checkinFields), crAlias, body))
  }

  /** How the listing so far grows by one change; stated apart from rendering to keep proofs small. */
  lemma ExtendByOne(before: seq<PendingChange>, changes: seq<PendingChange>, j: nat)
    requires j < |changes|
    ensures before + changes[..j + 1] == (before + changes[..j]) + [changes[j]]
    ensures before + changes[..j + 1] + changes[j + 1..] == before + changes
  {
    assert changes[..j + 1] == changes[..j] + [changes[j]];
    assert changes[..j + 1] + changes[j + 1..] == changes;
  }

  lemma ExtendByNone(before: seq<PendingChange>, changes: seq<PendingChange>)
    ensures before + changes[..0] == before
  {
    assert changes[..0] == [];
  }

  /** A change that raises its exception aborts the listing of its pending set. */
  lemma AbortsPendingSet(web: string, before: seq<PendingChange>, changes: seq<PendingChange>, j: nat)
    requires j < |changes|
    requires RenderChange(web, changes[j]).Err?
    requires RenderChanges(web, before + changes[..j]).Ok?
    ensures RenderChanges(web, before + changes) == RenderChange(web, changes[j])
  {
    ExtendByOne(before, changes, j);
    var upTo := before + changes[..j + 1];
    assert upTo[..|upTo| - 1] == before + changes[..j];
    RenderChangesErrorPersists(web, upTo, changes[j + 1..]);
  }

  /** An exception in pending set `k` aborts the listing of all pending sets. */
  lemma AbortsLaterSets(web: string, sets: seq<PendingSet>, k: nat)
    requires k < |sets|
    requires RenderChanges(web, Flatten(sets[..k]) + sets[k].pendingChanges).Err?
    ensures RenderChanges(web, Flatten(sets)) ==
            RenderChanges(web, Flatten(sets[..k]) + sets[k].pendingChanges)
  {
    FlattenStep(sets, k);
    FlattenAppend(sets[..k + 1], sets[k + 1..]);
    assert sets[..k + 1] + sets[k + 1..] == sets;
    RenderChangesErrorPersists(web, Flatten(sets[..k + 1]), Flatten(sets[k + 1..]));
  }

  class MailFromShelveset {
    var versionControl: VersionControlServer
    var crAlias: Option<string>
    var webViewPortStr: string
    var shelveName: string
    var shelveOwner: string

    constructor (vcs: VersionControlServer, shelvesetName: string, reviewAlias: Option<string>, webViewPort: int)
      ensures versionControl == vcs && crAlias == reviewAlias
      ensures webViewPortStr == PortSuffix(webViewPort)
      ensures ShelvesetRef(shelveName, shelveOwner) == ParseShelvesetRef(shelvesetName)
    {
      versionControl := vcs;
      crAlias := reviewAlias;
      webViewPortStr := PortSuffix(webViewPort);
      var textArray := Split(shelvesetName, ';');
      if |textArray| > 1 {
        shelveName := textArray[0];
        shelveOwner := textArray[1];
      } else {
        shelveName := textArray[0];
        shelveOwner := ".";
      }
    }

    /** Builds the mail for the shelveset this object names; showing it in Outlook is left out. */
    method GenerateMail(res: Resources) returns (r: Result<MailItem, MailError>)
      ensures r == ComposeMail(res, versionControl, shelveName, shelveOwner, crAlias, webViewPortStr)
    {
      var shelveset := GetShelveset(shelveName, shelveOwner);
      if shelveset.Err? {
        return Err(shelveset.error);
      }
      var item := GenerateMailItem(shelveset.value);
      var body := GenerateMailBody(shelveset.value, res);
      if body.Err? {
        return Err(body.error);
      }
      r := Ok(item.(htmlBody := body.value));
    }

    method GetShelveset(name: string, owner: string) returns (r: Result<Shelveset, MailError>)
      ensures r == SelectShelveset(name, versionControl.queryShelvesets(name, owner))
    {
      var shelvesetArray := versionControl.queryShelvesets(name, owner);
      if |shelvesetArray| == 0 {
        return Err(ShelvesetNotFound(name));
      }
      r := Ok(shelvesetArray[0]);
    }

    /** Subject, To and CC of the mail; the body is filled in later. */
    method GenerateMailItem(shelveset: Shelveset) returns (item: MailItem)
      ensures item.subject == Subject(shelveset)
      ensures item.to == Reviewer(shelveset.checkinFields)
      ensures item.cc == crAlias && item.htmlBody == ""
    {
      var to := GetReviewer(shelveset);
      item := MailItem(Subject(shelveset), to, crAlias, "");
    }

    /**
     * The body is collected in pieces, the work item links and the rows of
     * the pending changes apart from the fixed rows, and joined at the end;
     * the source appends all of them to one `StringBuilder`.
     */
    method GenerateMailBody(shelveset: Shelveset, res: Resources) returns (r: Result<string, MailError>)
      ensures r == MailBody(res, shelveset, webViewPortStr, versionControl.queryShelvedChanges(shelveset))
    {
      var tfsWebUIServer := WebUiBase(shelveset.serverUri, webViewPortStr);
      var textReviewer := GetReviewer(shelveset);

      var workItems := shelveset.workItems;
      var bugLinks := "";
      var i := 0;
      while i < |workItems|
        invariant 0 <= i <= |workItems|
        invariant bugLinks == WorkItemLinks(shelveset.serverUri, workItems[..i])
      {
        WorkItemLinksStep(shelveset.serverUri, workItems, i);
        bugLinks := bugLinks + WorkItemLink(shelveset.serverUri, workItems[i]);
        i := i + 1;
      }
      assert workItems[..i] == workItems;

      var pendingSets := versionControl.queryShelvedChanges(shelveset);
      var fileRows := RenderPendingSets(tfsWebUIServer, pendingSets);
      if fileRows.Err? {
        return Err(fileRows.error);
      }

      var body :=
        TableStart() +
        ReviewerRow(res, textReviewer) +
        ServerRow(shelveset.serverUri) +
        ShelvesetRow(tfsWebUIServer, shelveset.name, shelveset.ownerName) +
        DescriptionRow(res, shelveset.comment) +
        BugsRowStart(res) +
        bugLinks +
        BugsRowEnd() +
        FilesRowStart();
      MailBodyFromParts(res, shelveset, webViewPortStr, pendingSets, textReviewer, bugLinks, fileRows.value);
      r := Ok(body + fileRows.value + TableEnd());
    }

    /**
     * The files cell of the body: the nested loops over the pending sets and
     * their pending changes, aborted by the first change that raises.
     */
    method RenderPendingSets(tfsWebUIServer: string, pendingSets: seq<PendingSet>)
      returns (r: Result<string, MailError>)
      ensures r == RenderChanges(tfsWebUIServer, Flatten(pendingSets))
    {
      var fileRows := "";
      var k := 0;
      while k < |pendingSets|
        invariant 0 <= k <= |pendingSets|
        invariant RenderChanges(tfsWebUIServer, Flatten(pendingSets[..k])) == Ok(fileRows)
      {
        ghost var done := Flatten(pendingSets[..k]);
        var changes := pendingSets[k].pendingChanges;
        ExtendByNone(done, changes);
        var j := 0;
        while j < |changes|
          invariant 0 <= j <= |changes|
          invariant RenderChanges(tfsWebUIServer, done + changes[..j]) == Ok(fileRows)
        {
          var row := RenderChange(tfsWebUIServer, changes[j]);
          if row.Err? {
            AbortsPendingSet(tfsWebUIServer, done, changes, j);
            AbortsLaterSets(tfsWebUIServer, pendingSets, k);
            return Err(row.error);
          }
          ExtendByOne(done, changes, j);
          RenderChangesAppendOne(tfsWebUIServer, done + changes[..j], changes[j], fileRows);
          fileRows := fileRows + row.value;
          j := j + 1;
        }
        assert changes[..j] == changes;
        FlattenStep(pendingSets, k);
        k := k + 1;
      }
      assert pendingSets[..k] == pendingSets;
      r := Ok(fileRows);
    }

    method GetReviewer(shelveset: Shelveset) returns (r: Option<string>)
      ensures r == Reviewer(shelveset.checkinFields)
    {
      var values := shelveset.checkinFields;
      var i := 0;
      while i < |values|
        invariant 0 <= i <= |values|
        invariant forall j :: 0 <= j < i ==> values[j].name != CodeReviewerField
      {
        if values[i].name == CodeReviewerField {
          assert IsFirstReviewerField(values, i);
          return Some(values[i].value);
        }
        i := i + 1;
      }
      r := None;
    }
  }
}
