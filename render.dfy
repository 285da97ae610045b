/**
 * The HTML body of the review mail, as `GenerateMailBody` builds it, and the
 * helpers it uses: the reviewer lookup, the comment encoding, the web UI
 * base address and the row for one pending change.
 */
module Render {
  import opened Wrappers
  import opened Text
  import opened VersionControl

  /** `Environment.NewLine` on Windows, where Outlook runs; `AppendLine` ends every line with it. */
  const NewLine: string := "\r\n"

  /** The name of the check-in note field that holds the reviewer. */
  const CodeReviewerField: string := "Code Reviewer"

  /** The literal port `GenerateMailBody` replaces in the server address. */
  const ServicePort: string := ":8080"

  /** The localized resource strings the body uses; their contents are not part of this model. */
  datatype Resources = Resources(
    emailReviewer: string,
    emailReviewerNotPresent: string,
    emailDescription: string,
    emailBugs: string)

  /** The exceptions that abort the generation of a mail. */
  datatype MailError =
    | ShelvesetNotFound(name: string)
      // no shelveset matches the requested name and owner
    | SubstringOutOfRange(changeTypeName: string)
      // `ChangeTypeName.Substring(0, 3)` on a name shorter than three characters
    | FormatIndexOutOfRange(index: nat, argumentCount: nat)
      // a format item `{index}` with too few arguments; `String.Format` throws `FormatException`

  // ---------------------------------------------------------------------
  // GetReviewer

  /** `fields[i]` is the first field named "Code Reviewer". */
  predicate IsFirstReviewerField(fields: seq<CheckinField>, i: int) {
    0 <= i < |fields| && fields[i].name == CodeReviewerField &&
    forall j :: 0 <= j < i ==> fields[j].name != CodeReviewerField
  }

  /** The value of the first field named exactly "Code Reviewer"; `None` (null) when there is none. */
  function Reviewer(fields: seq<CheckinField>): (r: Option<string>)
    ensures r.None? <==> forall i :: 0 <= i < |fields| ==> fields[i].name != CodeReviewerField
    ensures r.Some? ==> exists i :: IsFirstReviewerField(fields, i) && r.value == fields[i].value
    decreases |fields|
  {
    if fields == [] then None
    else if fields[0].name == CodeReviewerField then
      assert IsFirstReviewerField(fields, 0);
      Some(fields[0].value)
    else
      var r := Reviewer(fields[1..]);
      assert forall i :: 0 <= i < |fields[1..]| ==> fields[1..][i] == fields[i + 1];
      if r.Some? then
        var i :| IsFirstReviewerField(fields[1..], i) && r.value == fields[1..][i].value;
        assert IsFirstReviewerField(fields, i + 1);
        r
      else r
  }

  /**
   * The text of the reviewer cell: the reviewer, or the not-present
   * placeholder when the reviewer is null or empty.
   */
  function ReviewerCellText(reviewer: Option<string>, notPresent: string): (t: string)
    ensures reviewer.Some? && reviewer.value != "" ==> t == reviewer.value
    ensures reviewer.None? || reviewer.value == "" ==> t == notPresent
  {
    if reviewer.None? || reviewer.value == "" then notPresent else reviewer.value
  }

  // ---------------------------------------------------------------------
  // HtmlEncode and the web UI address

  /**
   * The comment as HTML: every line feed becomes `<BR>`; nothing else is
   * escaped. A null or empty comment gives the empty string.
   */
  function HtmlEncode(text: string): (r: string)
    ensures r == SubstChar(text, '\n', "<BR>")
    ensures '\n' !in r
    ensures '\n' !in text ==> r == text
  {
    LineFeedSubstitution(text);
    if text == "" then "" else ReplaceAll(text, "\n", "<BR>")
  }

  /** What replacing "\n" by "<BR>" does to a text. */
  lemma LineFeedSubstitution(text: string)
    ensures ReplaceAll(text, "\n", "<BR>") == SubstChar(text, '\n', "<BR>")
    ensures '\n' !in SubstChar(text, '\n', "<BR>")
    ensures '\n' !in text ==> SubstChar(text, '\n', "<BR>") == text
  {
    ReplaceAllOneChar(text, '\n', "<BR>");
    SubstCharRemoves(text, '\n', "<BR>");
    if '\n' !in text {
      SubstCharAbsent(text, '\n', "<BR>");
    }
  }

  /** `string.Format(":{0}", webViewPort)`. */
  function PortSuffix(port: int): (r: string)
    ensures |r| >= 2 && r[0] == ':'
    ensures var digits := r[1..];
      (IsDigits(digits) || (|digits| > 0 && digits[0] == '-' && IsDigits(digits[1..]))) && ParseInt(digits) == port
  {
    IntToStringRoundTrip(port);
    var r := ":" + IntToString(port);
    assert r[1..] == IntToString(port);
    r
  }

  /** The web UI address: the server address with every ":8080" replaced by the port suffix. */
  function WebUiBase(serverUri: string, portSuffix: string): (r: string)
    ensures !Contains(serverUri, ServicePort) ==> r == serverUri
  {
    WithoutServicePort(serverUri, portSuffix);
    ReplaceAll(serverUri, ServicePort, portSuffix)
  }

  lemma WithoutServicePort(serverUri: string, portSuffix: string)
    ensures !Contains(serverUri, ServicePort) ==> ReplaceAll(serverUri, ServicePort, portSuffix) == serverUri
  {
    if !Contains(serverUri, ServicePort) {
      ReplaceAllAbsent(serverUri, ServicePort, portSuffix);
    }
  }

  // ---------------------------------------------------------------------
  // One pending change

  /** How the branches of `GenerateMailBody` classify a change-type flag set. */
  datatype ChangeKind = EditChange | AddChange | DeleteChange | OtherChange

  /**
   * The branch taken for `flags`: `Edit` alone first, then any set holding
   * `Add`, then `Delete` alone, then everything else.
   */
  function Classify(flags: set<ChangeBit>): (k: ChangeKind)
    ensures k == AddChange <==> Add in flags
    ensures k == EditChange <==> flags == {Edit}
    ensures k == DeleteChange <==> flags == {Delete}
  {
    if flags == {Edit} then EditChange
    else if Add in flags then AddChange
    else if flags == {Delete} then DeleteChange
    else OtherChange
  }

  /** A change whose row can be rendered without an exception. */
  predicate Renderable(c: PendingChange) {
    |c.changeTypeName| >= 3 && Classify(c.changeType) != OtherChange
  }

  const HistoryPage: string := "/history.aspx?item="
  const AnnotatePage: string := "/ann.aspx?item="
  const DifferencePage: string := "/UI/Pages/Scc/Difference.aspx?oitem="
  const DifferenceChange: string := "&ocs=-1&mpcid="
  const ViewSourcePage: string := "/UI/Pages/Scc/ViewSource.aspx?pcid="

  function HistoryUrl(web: string, itemId: int): string {
    web + HistoryPage + IntToString(itemId)
  }

  function AnnotateUrl(web: string, itemId: int): string {
    web + AnnotatePage + IntToString(itemId)
  }

  function DifferenceUrl(web: string, itemId: int, pendingChangeId: int): string {
    web + DifferencePage + IntToString(itemId) + DifferenceChange + IntToString(pendingChangeId)
  }

  function ViewSourceUrl(web: string, pendingChangeId: int): string {
    web + ViewSourcePage + IntToString(pendingChangeId)
  }

  /** The " H " link to the history of an item. */
  function HistoryLink(web: string, itemId: int): string {
    " <a href=" + HistoryUrl(web, itemId) + ">H</a> "
  }

  /** The " B " link to the annotated view of an item. */
  function AnnotateLink(web: string, itemId: int): string {
    " <a href=" + AnnotateUrl(web, itemId) + ">B</a> "
  }

  /** The " H " and " B " links of an edited or deleted item. */
  function HistoryAndAnnotateLinks(web: string, itemId: int): string {
    HistoryLink(web, itemId) + AnnotateLink(web, itemId)
  }

  /** The server path, as a link to `url`. */
  function PathLink(url: string, serverItem: string): string {
    "<a href=" + url + ">" + serverItem + "</a>"
  }

  const LineBreak: string := " <br>" + NewLine

  /** The line that links the server path to `url`. */
  function ItemLink(url: string, serverItem: string): string {
    PathLink(url, serverItem) + LineBreak
  }

  /** The files-cell text of one pending change, or the exception it raises. */
  function RenderChange(web: string, c: PendingChange): (r: Result<string, MailError>)
    ensures r.Ok? <==> Renderable(c)
    ensures |c.changeTypeName| < 3 ==> r == Err(SubstringOutOfRange(c.changeTypeName))
    ensures |c.changeTypeName| >= 3 && Classify(c.changeType) == OtherChange ==>
              r == Err(FormatIndexOutOfRange(1, 1))
    ensures r.Ok? ==> |r.value| >= 3 && r.value[..3] == c.changeTypeName[..3]
  {
    if |c.changeTypeName| < 3 then Err(SubstringOutOfRange(c.changeTypeName))
    else
      var abbreviation := c.changeTypeName[..3];
      match Classify(c.changeType)
      case EditChange =>
        Ok(abbreviation + HistoryAndAnnotateLinks(web, c.itemId) +
           ItemLink(DifferenceUrl(web, c.itemId, c.pendingChangeId), c.serverItem))
      case AddChange =>
        Ok(abbreviation + " H B " + ItemLink(ViewSourceUrl(web, c.pendingChangeId), c.serverItem))
      case DeleteChange =>
        Ok(abbreviation + HistoryAndAnnotateLinks(web, c.itemId) +
           ItemLink(ViewSourceUrl(web, c.pendingChangeId), c.serverItem))
      case OtherChange =>
        // `string.Format("{1} <br>", ServerItem)`: format item 1 with one argument
        Err(FormatIndexOutOfRange(1, 1))
  }

  /** The rows of `cs` in order; the first change that raises aborts with its exception. */
  function RenderChanges(web: string, cs: seq<PendingChange>): (r: Result<string, MailError>)
    ensures r.Ok? <==> forall k :: 0 <= k < |cs| ==> Renderable(cs[k])
    ensures r.Err? ==> !r.error.ShelvesetNotFound?
    decreases |cs|
  {
    if cs == [] then Ok("")
    else
      var init := cs[..|cs| - 1];
      assert forall k :: 0 <= k < |init| ==> init[k] == cs[k];
      var done := RenderChanges(web, init);
      var row := RenderChange(web, cs[|cs| - 1]);
      if done.Err? then done
      else if row.Err? then row
      else Ok(done.value + row.value)
  }

  /** The strings of `ss` one after another. */
  function Concat(ss: seq<string>): string
    decreases |ss|
  {
    if ss == [] then "" else Concat(ss[..|ss| - 1]) + ss[|ss| - 1]
  }

  /** The row of each change, in the order of the changes. */
  function Rows(web: string, cs: seq<PendingChange>): (rows: seq<string>)
    requires forall k :: 0 <= k < |cs| ==> Renderable(cs[k])
    ensures |rows| == |cs|
    ensures forall k :: 0 <= k < |cs| ==> RenderChange(web, cs[k]) == Ok(rows[k])
  {
    seq(|cs|, k requires 0 <= k < |cs| => RenderChange(web, cs[k]).value)
  }

  /** Listing one more renderable change appends its row. */
  lemma RenderChangesAppendOne(web: string, cs: seq<PendingChange>, c: PendingChange, rows: string)
    requires RenderChanges(web, cs) == Ok(rows)
    requires RenderChange(web, c).Ok?
    ensures RenderChanges(web, cs + [c]) == Ok(rows + RenderChange(web, c).value)
  {
    assert (cs + [c])[..|cs + [c]| - 1] == cs;
  }

  /** Once a change has raised its exception, later changes do not matter. */
  lemma {:induction false} RenderChangesErrorPersists(web: string, cs: seq<PendingChange>, more: seq<PendingChange>)
    requires RenderChanges(web, cs).Err?
    ensures RenderChanges(web, cs + more) == RenderChanges(web, cs)
    decreases |more|
  {
    if more == [] {
      assert cs + more == cs;
    } else {
      var init := more[..|more| - 1];
      RenderChangesErrorPersists(web, cs, init);
      assert (cs + more)[..|cs + more| - 1] == cs + init;
    }
  }

  // ---------------------------------------------------------------------
  // The rows of the table

  /** The opening of the table. */
  const TableTag: string :=
    "<table style=\"font-family:verdana;font-size:10pt;\" border=1 cellspacing=0 cellpadding=0>"

  /** The opening of the value cell of the files row. */
  const FilesCellTag: string := "<td  style=\"font-family:courier new;font-size:10pt;\" valign=top>"

  /** A row starts with its bold label cell. */
  const LabelStart: string := "<tr><td valign=top><b>"
  const LabelEnd: string := "</b></td>"
  const ValueStart: string := "<td valign=top>"
  const RowEnd: string := "</td></tr>"

  const WorkItemPage: string := "WorkItemTracking/Workitem.aspx?artifactMoniker="

  /** The malformed paragraph tag and the table start. */
  function TableStart(): string {
    "<p" + NewLine + TableTag + NewLine
  }

  /** The reviewer row; its value cell is left out when the cell text is empty. */
  function ReviewerRow(res: Resources, reviewer: Option<string>): string {
    var cell := ReviewerCellText(reviewer, res.emailReviewerNotPresent);
    LabelStart + res.emailReviewer + LabelEnd + "\n" +
    (if cell == "" then "" else ValueStart + cell + RowEnd + "\n")
  }

  function ServerRow(serverUri: string): string {
    LabelStart + "TFS Server" + LabelEnd + ValueStart + serverUri + RowEnd
  }

  function ShelvesetUrl(web: string, name: string, owner: string): string {
    web + "/ss.aspx?ss=" + name + ";" + owner
  }

  /** The shelveset, shown as `name;owner`, as a link to its page. */
  function ShelvesetLink(web: string, name: string, owner: string): string {
    "<a href=\"" + ShelvesetUrl(web, name, owner) + "\">" + name + ";" + owner + "</a>"
  }

  function ShelvesetRow(web: string, name: string, owner: string): string {
    LabelStart + "Shelveset" + LabelEnd + ValueStart + ShelvesetLink(web, name, owner) + RowEnd
  }

  function DescriptionRow(res: Resources, comment: string): string {
    LabelStart + res.emailDescription + LabelEnd + ValueStart + HtmlEncode(comment) + RowEnd + "\n"
  }

  function BugsRowStart(res: Resources): string {
    LabelStart + res.emailBugs + LabelEnd + ValueStart + "\n"
  }

  function WorkItemUrl(serverUri: string, id: int): string {
    serverUri + WorkItemPage + IntToString(id)
  }

  function WorkItemLink(serverUri: string, w: WorkItem): string {
    "<a href=" + WorkItemUrl(serverUri, w.id) + ">" + IntToString(w.id) + "</a> " + w.title + "<br>\n"
  }

  /** The links of all work items, in order. */
  function WorkItemLinks(serverUri: string, ws: seq<WorkItem>): string
    decreases |ws|
  {
    if ws == [] then ""
    else WorkItemLinks(serverUri, ws[..|ws| - 1]) + WorkItemLink(serverUri, ws[|ws| - 1])
  }

  /** Listing one more work item appends its link. */
  lemma WorkItemLinksStep(serverUri: string, ws: seq<WorkItem>, i: nat)
    requires i < |ws|
    ensures WorkItemLinks(serverUri, ws[..i + 1]) == WorkItemLinks(serverUri, ws[..i]) + WorkItemLink(serverUri, ws[i])
  {
    assert ws[..i + 1][..i] == ws[..i];
  }

  function BugsRowEnd(): string {
    RowEnd + NewLine
  }

  function FilesRowStart(): string {
    LabelStart + "File(s)" + LabelEnd + NewLine + FilesCellTag + NewLine
  }

  /** The end of the files row, the two rows left for the author, and the table end. */
  function TableEnd(): string {
    RowEnd + NewLine +
    LabelStart + "Tests Run" + LabelEnd + ValueStart + RowEnd + NewLine +
    LabelStart + "Tests Added/Fixed" + LabelEnd + ValueStart + RowEnd + NewLine +
    "</table>" + NewLine
  }

  /** Everything before the rows of the pending changes. */
  function BodyHead(res: Resources, s: Shelveset, web: string): string {
    TableStart() +
    ReviewerRow(res, Reviewer(s.checkinFields)) +
    ServerRow(s.serverUri) +
    ShelvesetRow(web, s.name, s.ownerName) +
    DescriptionRow(res, s.comment) +
    BugsRowStart(res) +
    WorkItemLinks(s.serverUri, s.workItems) +
    BugsRowEnd() +
    FilesRowStart()
  }

  /**
   * The body `GenerateMailBody` returns for shelveset `s` whose shelved
   * changes are `sets`, or the exception that aborts it.
   */
  function MailBody(res: Resources, s: Shelveset, portSuffix: string, sets: seq<PendingSet>)
    : (r: Result<string, MailError>)
    ensures r.Ok? <==> forall c :: c in Flatten(sets) ==> Renderable(c)
    ensures r.Err? ==> !r.error.ShelvesetNotFound?
  {
    var web := WebUiBase(s.serverUri, portSuffix);
    var cs := Flatten(sets);
    var files := RenderChanges(web, cs);
    assert (forall c :: c in cs ==> Renderable(c)) <==> (forall k :: 0 <= k < |cs| ==> Renderable(cs[k]));
    if files.Err? then Err(files.error)
    else
      var head := BodyHead(res, s, web);
      Ok(head + files.value + TableEnd())
  }

  /** The body assembled from its rows, its work item links and its file rows. */
  lemma MailBodyFromParts(res: Resources, s: Shelveset, portSuffix: string, sets: seq<PendingSet>,
                          reviewer: Option<string>, bugLinks: string, fileRows: string)
    requires reviewer == Reviewer(s.checkinFields)
    requires bugLinks == WorkItemLinks(s.serverUri, s.workItems)
    requires RenderChanges(WebUiBase(s.serverUri, portSuffix), Flatten(sets)) == Ok(fileRows)
    ensures MailBody(res, s, portSuffix, sets) ==
      var web := WebUiBase(s.serverUri, portSuffix);
      Ok(TableStart() +
         ReviewerRow(res, reviewer) +
         ServerRow(s.serverUri) +
         ShelvesetRow(web, s.name, s.ownerName) +
         DescriptionRow(res, s.comment) +
         BugsRowStart(res) +
         bugLinks +
         BugsRowEnd() +
         FilesRowStart() + fileRows + TableEnd())
  {
  }
}
