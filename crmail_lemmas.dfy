/**
 * Properties of the mail generator: how the command-line token is read, which
 * reviewer is chosen, what the comment encoding and the port replacement do,
 * which links each kind of change gets, and when a body is produced at all.
 */
module CrmailProperties {
  import opened Wrappers
  import opened Text
  import opened VersionControl
  import opened Render
  import opened Crmail

  // ---------------------------------------------------------------------
  // The command-line token

  /** Without ';' the token is the whole name and the owner is the current user. */
  lemma ParseUnqualified(token: string)
    requires ';' !in token
    ensures ParseShelvesetRef(token) == ShelvesetRef(token, ".")
  {
    SplitWithoutSeparator(token, ';');
  }

  /** `name;owner` names `owner`'s shelveset `name`; the owner may be empty. */
  lemma ParseQualified(name: string, owner: string)
    requires ';' !in name && ';' !in owner
    ensures ParseShelvesetRef(name + ";" + owner) == ShelvesetRef(name, owner)
  {
    SplitAtFirstSeparator(name, ';', owner);
    SplitWithoutSeparator(owner, ';');
  }

  /** Whatever follows a second ';' is dropped. */
  lemma ParseQualifiedIgnoresRest(name: string, owner: string, rest: string)
    requires ';' !in name && ';' !in owner
    ensures ParseShelvesetRef(name + ";" + owner + ";" + rest) == ShelvesetRef(name, owner)
  {
    SplitAtFirstSeparator(name, ';', owner + ";" + rest);
    assert name + ";" + owner + ";" + rest == name + [';'] + (owner + ";" + rest);
    SplitAtFirstSeparator(owner, ';', rest);
    assert owner + ";" + rest == owner + [';'] + rest;
  }

  lemma ParseExampleUnqualified()
    ensures ParseShelvesetRef("foo") == ShelvesetRef("foo", ".")
  {
    ParseUnqualified("foo");
  }

  lemma ParseExampleEmptyOwner()
    ensures ParseShelvesetRef("foo;") == ShelvesetRef("foo", "")
  {
    ParseQualified("foo", "");
    assert "foo" + ";" + "" == "foo;";
  }

  lemma ParseExampleDomainOwner()
    ensures ParseShelvesetRef("fix;corp\\ann") == ShelvesetRef("fix", "corp\\ann")
  {
    ParseQualified("fix", "corp\\ann");
    assert "fix" + ";" + "corp\\ann" == "fix;corp\\ann";
  }

  // ---------------------------------------------------------------------
  // The reviewer

  lemma ReviewerExamples()
    ensures Reviewer([]) == None
    ensures Reviewer([CheckinField("Security Reviewer", "ann"), CheckinField("Code Reviewer", "bob"),
                      CheckinField("Code Reviewer", "carol")]) == Some("bob")
    ensures Reviewer([CheckinField("code reviewer", "dan")]) == None
  {
    var fields := [CheckinField("Security Reviewer", "ann"), CheckinField("Code Reviewer", "bob"),
                   CheckinField("Code Reviewer", "carol")];
    assert fields[0].name != CodeReviewerField;
    assert IsFirstReviewerField(fields, 1);
    assert "code reviewer" != CodeReviewerField by {
      assert "code reviewer"[0] != CodeReviewerField[0];
    }
  }

  /**
   * Without a reviewer, or with an empty one, the reviewer cell shows the
   * not-present text; if that text is empty too, the row has no value cell.
   */
  lemma ReviewerRowWithoutReviewer(res: Resources, reviewer: Option<string>)
    requires reviewer.None? || reviewer.value == ""
    ensures res.emailReviewerNotPresent != "" ==>
      Contains(ReviewerRow(res, reviewer), ValueStart + res.emailReviewerNotPresent + RowEnd + "\n")
    ensures res.emailReviewerNotPresent == "" ==>
      ReviewerRow(res, reviewer) == LabelStart + res.emailReviewer + LabelEnd + "\n"
  {
    var labelCell := LabelStart + res.emailReviewer + LabelEnd + "\n";
    if res.emailReviewerNotPresent != "" {
      ContainsMiddle(labelCell, ValueStart + res.emailReviewerNotPresent + RowEnd + "\n", "");
      assert labelCell + (ValueStart + res.emailReviewerNotPresent + RowEnd + "\n") + "" ==
             ReviewerRow(res, reviewer);
    } else {
      assert labelCell + "" == labelCell;
    }
  }

  /** A non-empty reviewer is shown in the reviewer cell. */
  lemma ReviewerRowWithReviewer(res: Resources, reviewer: string)
    requires reviewer != ""
    ensures Contains(ReviewerRow(res, Some(reviewer)), ValueStart + reviewer + RowEnd + "\n")
  {
    var labelCell := LabelStart + res.emailReviewer + LabelEnd + "\n";
    ContainsMiddle(labelCell, ValueStart + reviewer + RowEnd + "\n", "");
    assert labelCell + (ValueStart + reviewer + RowEnd + "\n") + "" == ReviewerRow(res, Some(reviewer));
  }

  // ---------------------------------------------------------------------
  // The comment and the web UI address

  /** The comment's line break becomes "<BR>"; the two lines around it are kept as they are. */
  lemma HtmlEncodeTwoLines(first: string, second: string)
    requires '\n' !in first && '\n' !in second
    ensures HtmlEncode(first + "\n" + second) == first + "<BR>" + second
  {
    var n := '\n';
    SubstCharAppend(first + "\n", second, n, "<BR>");
    SubstCharAppend(first, "\n", n, "<BR>");
    SubstCharAbsent(first, n, "<BR>");
    SubstCharAbsent(second, n, "<BR>");
    assert SubstChar("\n", n, "<BR>") == "<BR>";
  }

  /**
   * The replacement is textual, from the left: the first ":8080" is replaced
   * wherever it stands, and the rest of the address is treated the same way.
   */
  lemma WebUiBaseFirstServicePort(before: string, after: string, portSuffix: string)
    requires forall i: nat :: i < |before| ==> !OccursAt(before + ServicePort + after, ServicePort, i)
    ensures WebUiBase(before + ServicePort + after, portSuffix) == before + portSuffix + WebUiBase(after, portSuffix)
  {
    ReplaceAllFirstOccurrence(before, ServicePort, portSuffix, after);
  }

  lemma PortSuffixExample()
    ensures PortSuffix(8090) == ":8090"
  {
    assert NatToString(8) == "8";
    assert NatToString(80) == "80";
    assert NatToString(809) == "809";
  }

  /** An address with one ":8080", after the host name, gets the web UI port in its place. */
  lemma WebUiBaseOneServicePort(host: string, portSuffix: string, path: string)
    requires '8' !in host && !Contains(path, ServicePort)
    ensures WebUiBase(host + ServicePort + path, portSuffix) == host + portSuffix + path
  {
    NoOccurrenceBefore(host, ServicePort, path);
    ReplaceAllFirstOccurrence(host, ServicePort, portSuffix, path);
    ReplaceAllAbsent(path, ServicePort, portSuffix);
  }

  /** The usual configuration: "http://tfs:8080/" with port 8090 gives "http://tfs:8090/". */
  lemma WebUiBaseExample()
    ensures WebUiBase("http://tfs:8080/", PortSuffix(8090)) == "http://tfs:8090/"
  {
    PortSuffixExample();
    assert "http://tfs" + ServicePort + "/" == "http://tfs:8080/";
    assert "http://tfs" + ":8090" + "/" == "http://tfs:8090/";
    assert '8' !in "http://tfs";
    assert !Contains("/", ServicePort);
    WebUiBaseOneServicePort("http://tfs", ":8090", "/");
  }

  // ---------------------------------------------------------------------
  // One pending change

  lemma ClassifyExamples()
    ensures Classify({Add, Edit}) == AddChange
    ensures Classify({Edit}) == EditChange
    ensures Classify({Delete}) == DeleteChange
    ensures Classify({Edit, Encoding}) == OtherChange
    ensures Classify({Rename}) == OtherChange
    ensures Classify({}) == OtherChange
  {
    assert Edit in {Edit} && Edit !in {Rename};
    assert Encoding in {Edit, Encoding};
    var none: set<ChangeBit> := {};
    assert Delete !in none;
  }

  /** A flag set holding `Add` renders as a plain add, whatever other bits it carries. */
  lemma AddBitWins(web: string, c: PendingChange)
    requires Add in c.changeType
    ensures RenderChange(web, c) == RenderChange(web, c.(changeType := {Add}))
  {
  }

  /** An edited item: its abbreviation, then history and annotate links, then the difference link on its path. */
  lemma EditLinks(web: string, c: PendingChange)
    requires |c.changeTypeName| >= 3 && Classify(c.changeType) == EditChange
    ensures RenderChange(web, c).Ok?
    ensures var row := RenderChange(web, c).value;
      Contains(row, HistoryLink(web, c.itemId)) &&
      Contains(row, AnnotateLink(web, c.itemId)) &&
      Contains(row, PathLink(DifferenceUrl(web, c.itemId, c.pendingChangeId), c.serverItem))
  {
    LinksOfRow(web, c, DifferenceUrl(web, c.itemId, c.pendingChangeId));
  }

  /** An added item: " H B " in place of the two links, then the view-source link on its path. */
  lemma AddLinks(web: string, c: PendingChange)
    requires |c.changeTypeName| >= 3 && Add in c.changeType
    ensures RenderChange(web, c).Ok?
    ensures var row := RenderChange(web, c).value;
      row[3..8] == " H B " &&
      Contains(row, PathLink(ViewSourceUrl(web, c.pendingChangeId), c.serverItem))
  {
    var abbreviation := c.changeTypeName[..3];
    var link := ItemLink(ViewSourceUrl(web, c.pendingChangeId), c.serverItem);
    var path := PathLink(ViewSourceUrl(web, c.pendingChangeId), c.serverItem);
    ContainsSelf(path);
    ContainsInLeft(path, LineBreak, path);
    ContainsInRight(abbreviation + " H B ", link, path);
  }

  /** A deleted item: history and annotate links, then the view-source link on its path. */
  lemma DeleteLinks(web: string, c: PendingChange)
    requires |c.changeTypeName| >= 3 && c.changeType == {Delete}
    ensures RenderChange(web, c).Ok?
    ensures var row := RenderChange(web, c).value;
      Contains(row, HistoryLink(web, c.itemId)) &&
      Contains(row, AnnotateLink(web, c.itemId)) &&
      Contains(row, PathLink(ViewSourceUrl(web, c.pendingChangeId), c.serverItem))
  {
    LinksOfRow(web, c, ViewSourceUrl(web, c.pendingChangeId));
  }

  /** A row made of the abbreviation, the two links and the path line contains each link. */
  lemma LinksOfRow(web: string, c: PendingChange, url: string)
    requires |c.changeTypeName| >= 3
    ensures var row := c.changeTypeName[..3] + HistoryAndAnnotateLinks(web, c.itemId) + ItemLink(url, c.serverItem);
      Contains(row, HistoryLink(web, c.itemId)) &&
      Contains(row, AnnotateLink(web, c.itemId)) &&
      Contains(row, PathLink(url, c.serverItem))
  {
    var abbreviation := c.changeTypeName[..3];
    var history := HistoryLink(web, c.itemId);
    var annotate := AnnotateLink(web, c.itemId);
    var path := PathLink(url, c.serverItem);
    var head := abbreviation + HistoryAndAnnotateLinks(web, c.itemId);
    ContainsSelf(history);
    ContainsInLeft(history, annotate, history);
    ContainsInRight(abbreviation, history + annotate, history);
    ContainsInLeft(head, ItemLink(url, c.serverItem), history);
    ContainsSelf(annotate);
    ContainsInRight(history, annotate, annotate);
    ContainsInRight(abbreviation, history + annotate, annotate);
    ContainsInLeft(head, ItemLink(url, c.serverItem), annotate);
    ContainsSelf(path);
    ContainsInLeft(path, LineBreak, path);
    ContainsInRight(head, ItemLink(url, c.serverItem), path);
  }

  lemma IntToStringExamples()
    ensures IntToString(42) == "42"
    ensures IntToString(7) == "7"
  {
    assert NatToString(4) == "4";
    assert NatToString(42) == NatToString(4) + [DigitChar(2)];
  }

  /** The history link of item 42 on the web UI at http://tfs:8090. */
  lemma HistoryUrlExample()
    ensures HistoryUrl("http://tfs:8090", 42) == "http://tfs:8090/history.aspx?item=42"
  {
    IntToStringExamples();
  }

  // ---------------------------------------------------------------------
  // The list of changes

  /** The listing is the row of every change, in the order of the changes. */
  lemma {:induction false} RenderChangesInOrder(web: string, cs: seq<PendingChange>)
    requires forall k :: 0 <= k < |cs| ==> Renderable(cs[k])
    ensures RenderChanges(web, cs) == Ok(Concat(Rows(web, cs)))
    decreases |cs|
  {
    if cs != [] {
      var init := cs[..|cs| - 1];
      RenderChangesInOrder(web, init);
      assert Rows(web, cs)[..|cs| - 1] == Rows(web, init);
    }
  }

  /** The first change that cannot be rendered decides the exception. */
  lemma {:induction false} RenderChangesFirstError(web: string, cs: seq<PendingChange>, k: nat)
    requires k < |cs| && !Renderable(cs[k])
    requires forall j :: 0 <= j < k ==> Renderable(cs[j])
    ensures RenderChanges(web, cs) == RenderChange(web, cs[k])
    decreases |cs|
  {
    var init := cs[..|cs| - 1];
    if k == |cs| - 1 {
      assert forall j :: 0 <= j < |init| ==> init[j] == cs[j];
      assert RenderChanges(web, init).Ok?;
    } else {
      assert init[k] == cs[k];
      assert forall j :: 0 <= j < k ==> init[j] == cs[j];
      RenderChangesFirstError(web, init, k);
    }
  }

  /** Every work item gets its link. */
  lemma {:induction false} WorkItemLinksListEvery(serverUri: string, ws: seq<WorkItem>, k: nat)
    requires k < |ws|
    ensures Contains(WorkItemLinks(serverUri, ws), WorkItemLink(serverUri, ws[k]))
    decreases |ws|
  {
    var init := ws[..|ws| - 1];
    var last := WorkItemLink(serverUri, ws[|ws| - 1]);
    if k == |ws| - 1 {
      ContainsSelf(last);
      ContainsInRight(WorkItemLinks(serverUri, init), last, last);
    } else {
      WorkItemLinksListEvery(serverUri, init, k);
      assert init[k] == ws[k];
      ContainsInLeft(WorkItemLinks(serverUri, init), last, WorkItemLink(serverUri, ws[k]));
    }
  }

  /** A work item links to the work-item page on the server address, with no separator added. */
  lemma WorkItemLinkTarget(serverUri: string, w: WorkItem)
    ensures Contains(WorkItemLink(serverUri, w), serverUri + WorkItemPage + IntToString(w.id))
  {
    var url := WorkItemUrl(serverUri, w.id);
    var id := IntToString(w.id);
    ContainsSelf(url);
    ContainsInRight("<a href=", url, url);
    ContainsInLeft("<a href=" + url, ">", url);
    ContainsInLeft("<a href=" + url + ">", id, url);
    ContainsInLeft("<a href=" + url + ">" + id, "</a> ", url);
    ContainsInLeft("<a href=" + url + ">" + id + "</a> ", w.title, url);
    ContainsInLeft("<a href=" + url + ">" + id + "</a> " + w.title, "<br>\n", url);
  }

  // ---------------------------------------------------------------------
  // The whole body

  /** The body is the head rows, then every change's row in pending-set order, then the closing rows. */
  lemma MailBodyLayout(res: Resources, s: Shelveset, portSuffix: string, sets: seq<PendingSet>)
    requires MailBody(res, s, portSuffix, sets).Ok?
    ensures var web := WebUiBase(s.serverUri, portSuffix);
      var cs := Flatten(sets);
      (forall k :: 0 <= k < |cs| ==> Renderable(cs[k])) &&
      MailBody(res, s, portSuffix, sets).value == BodyHead(res, s, web) + Concat(Rows(web, cs)) + TableEnd()
  {
    var web := WebUiBase(s.serverUri, portSuffix);
    var cs := Flatten(sets);
    assert forall k :: 0 <= k < |cs| ==> cs[k] in cs;
    RenderChangesInOrder(web, cs);
  }

  /** No body is produced when some change cannot be rendered; the first such change decides the exception. */
  lemma MailBodyFirstError(res: Resources, s: Shelveset, portSuffix: string, sets: seq<PendingSet>, k: nat)
    requires var cs := Flatten(sets);
      k < |cs| && !Renderable(cs[k]) && forall j :: 0 <= j < k ==> Renderable(cs[j])
    ensures MailBody(res, s, portSuffix, sets) ==
            RenderChange(WebUiBase(s.serverUri, portSuffix), Flatten(sets)[k])
  {
    RenderChangesFirstError(WebUiBase(s.serverUri, portSuffix), Flatten(sets), k);
  }

  /** The shelveset row links to the shelveset page of the web UI. */
  lemma BodyHeadLinksShelveset(res: Resources, s: Shelveset, web: string)
    ensures Contains(BodyHead(res, s, web), ShelvesetLink(web, s.name, s.ownerName))
  {
    var link := ShelvesetLink(web, s.name, s.ownerName);
    var row := ShelvesetRow(web, s.name, s.ownerName);
    var before := LabelStart + "Shelveset" + LabelEnd + ValueStart;
    ContainsSelf(link);
    ContainsInRight(before, link, link);
    ContainsInLeft(before + link, RowEnd, link);
    var top := TableStart() + ReviewerRow(res, Reviewer(s.checkinFields)) + ServerRow(s.serverUri);
    ContainsInRight(top, row, link);
    ContainsInLeft(top + row, DescriptionRow(res, s.comment), link);
    var upToDescription := top + row + DescriptionRow(res, s.comment);
    ContainsInLeft(upToDescription, BugsRowStart(res), link);
    ContainsInLeft(upToDescription + BugsRowStart(res), WorkItemLinks(s.serverUri, s.workItems), link);
    var upToLinks := upToDescription + BugsRowStart(res) + WorkItemLinks(s.serverUri, s.workItems);
    ContainsInLeft(upToLinks, BugsRowEnd(), link);
    ContainsInLeft(upToLinks + BugsRowEnd(), FilesRowStart(), link);
  }

  /** An empty comment gives an empty description cell. */
  lemma EmptyDescriptionRow(res: Resources)
    ensures DescriptionRow(res, "") == LabelStart + res.emailDescription + LabelEnd + ValueStart + RowEnd + "\n"
  {
    var start := LabelStart + res.emailDescription + LabelEnd + ValueStart;
    assert HtmlEncode("") == "";
    assert start + "" == start;
  }

  /** Without work items the bugs cell is still there, empty. */
  lemma EmptyBugsCell(res: Resources, s: Shelveset, web: string)
    requires s.workItems == []
    ensures Contains(BodyHead(res, s, web), BugsRowStart(res) + BugsRowEnd())
  {
    var top := TableStart() + ReviewerRow(res, Reviewer(s.checkinFields)) + ServerRow(s.serverUri) +
               ShelvesetRow(web, s.name, s.ownerName) + DescriptionRow(res, s.comment);
    assert WorkItemLinks(s.serverUri, s.workItems) == "";
    assert top + BugsRowStart(res) + "" == top + BugsRowStart(res);
    ContainsAdjacent(top, BugsRowStart(res), BugsRowEnd(), FilesRowStart());
  }

  // ---------------------------------------------------------------------
  // The mail

  /**
   * For a token without ';' the generator asks the server for the current
   * user's shelveset of that name and fails, naming it, iff there is none.
   */
  lemma UnqualifiedTokenQueriesCurrentUser(res: Resources, vcs: VersionControlServer, token: string,
                                           crAlias: Option<string>, port: int)
    requires ';' !in token
    ensures var ref := ParseShelvesetRef(token);
      ref.owner == "." &&
      (ComposeMail(res, vcs, ref.name, ref.owner, crAlias, PortSuffix(port)) == Err(ShelvesetNotFound(token))
       <==> vcs.queryShelvesets(token, ".") == [])
  {
    ParseUnqualified(token);
  }
}
