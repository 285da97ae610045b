# crmail: code review mail from a TFS shelveset

`crmail` is a command-line tool for Team Foundation Server. It takes the name of a
shelveset, optionally written as `name;owner`, and asks the version control server
for it. From the shelveset it builds an Outlook mail for the code reviewers:

- the subject is `CR: <area> name;owner`;
- To is the value of the shelveset's first "Code Reviewer" check-in note;
- CC is the review alias;
- the HTML body is a table with these rows: the reviewer, the TFS server, a link
  to the shelveset in the web UI, the comment, links to the work items, and one
  line per pending change ("edi", "add", "del" …) with history ("H"),
  annotate ("B") and difference or view-source links.

The web UI address is the server address with every ":8080" replaced by
":<web view port>".

This project models `MailFromShelveset` in `GenerateMailFromShelveset.cs`:

| file | module | what it holds |
|---|---|---|
| `wrappers.dfy` | `Wrappers` | `Option` (null) and `Result` (a value or the exception raised) |
| `text.dfy` | `Text` | stand-ins for the .NET string operations the class uses: `Split` on one character, `Replace` of a substring, line-feed substitution, and invariant-culture `int` formatting, each with its lemmas |
| `version_control.dfy` | `VersionControl` | the TFS client types the class reads: shelveset, check-in note field, work item, pending set, pending change with its change-type flag set; the server as two query functions |
| `render.dfy` | `Render` | the pure parts of the body: reviewer lookup, `HtmlEncode`, the web UI address, change classification, the row of one pending change, the whole body as the function `MailBody` |
| `crmail.dfy` | `Crmail` | the reading of the command-line token; `ComposeMail`, the whole result of `GenerateMail`; class `MailFromShelveset` with the constructor and the methods, as loops proved against the functions above |
| `crmail_lemmas.dfy` | `CrmailProperties` | the properties the tool promises, each stated as a lemma over the model |

A method that builds text, such as `GetReviewer`, `GenerateMailBody` or the
nested loops over pending sets, is a `method` with loops. Its `ensures` ties the
result to a specification function: `Reviewer`, `MailBody` or `RenderChanges`.
The lemmas about the tool are then stated over those functions.

Exceptions become `Err` values of `MailError`:

- `ShelvesetNotFound`: the query returned no shelveset.
- `SubstringOutOfRange`: `ChangeTypeName.Substring(0, 3)` was called on a name shorter than three characters.
- `FormatIndexOutOfRange(1, 1)`: `string.Format("{1} <br>", item)` was called with one argument. This happens for every change that is neither a plain edit, an add, nor a plain delete.

The first exception ends the whole run, and no mail is produced.

How the branches of the files cell are taken:

- The branches test `ChangeType == Edit` first, then the Add bit, then `ChangeType == Delete` (lines 173, 184, 193). `Render.Classify` follows this order, and its contract shows that a flag set holding the Add bit is always an add, and that the edit and delete branches are taken exactly for `{Edit}` and `{Delete}`.
- Any other change reaches `string.Format("{1} <br>", …)` at lines 206-207, which has one argument for format item 1 and throws. No body is produced then; `Render.RenderChange` returns `FormatIndexOutOfRange(1, 1)` for such a change.
- `Substring(0, 3)` at line 171 comes before every branch, so a change-type name shorter than three characters raises first, whatever its kind.

## Model

| member | source | states |
|---|---|---|
| Crmail.MailFromShelveset.constructor | GenerateMailFromShelveset.cs:26-47 | stores the server and the review alias; the port text is ":" followed by the port's decimal digits; name and owner are what `ParseShelvesetRef` reads from the token |
| Crmail.ParseShelvesetRef | GenerateMailFromShelveset.cs:36-46 | the token split on ';': the first piece is the name, the second the owner, and "." is the owner when there is no second piece; neither name nor owner holds a ';' (what each token gives is stated by the Parse lemmas below) |
| CrmailProperties.ParseUnqualified | GenerateMailFromShelveset.cs:36-46 | a token without ';' is the shelveset name, and the owner is "." (the current user) |
| CrmailProperties.ParseQualified | GenerateMailFromShelveset.cs:36-41 | `name;owner` gives that name and that owner; the owner may be empty |
| CrmailProperties.ParseQualifiedIgnoresRest | GenerateMailFromShelveset.cs:36-41 | anything after a second ';' is ignored |
| CrmailProperties.ParseExampleUnqualified | GenerateMailFromShelveset.cs:36-46 | "foo" names foo of the current user "." |
| CrmailProperties.ParseExampleEmptyOwner | GenerateMailFromShelveset.cs:36-41 | "foo;" names foo with an empty owner |
| CrmailProperties.ParseExampleDomainOwner | GenerateMailFromShelveset.cs:36-41 | "fix;corp\ann" names fix of owner corp\ann |
| CrmailProperties.UnqualifiedTokenQueriesCurrentUser | GenerateMailFromShelveset.cs:36-46 | for a token without ';', the run fails with "shelveset not found", naming the token, exactly when the server has no shelveset of that name for the current user |
| Text.Split | GenerateMailFromShelveset.cs:36 | `String.Split` gives at least one piece, and no piece holds the separator |
| Text.JoinSplit | GenerateMailFromShelveset.cs:36 | joining the pieces with the separator gives the token back, so splitting loses nothing |
| Text.SplitJoin | GenerateMailFromShelveset.cs:36 | splitting a join of separator-free pieces gives the pieces back |
| Text.SplitWithoutSeparator | GenerateMailFromShelveset.cs:36 | a string without the separator is a single piece |
| Text.SplitAtFirstSeparator | GenerateMailFromShelveset.cs:36 | the first piece ends at the first separator, and the rest is split again |
| Text.IntToStringRoundTrip | GenerateMailFromShelveset.cs:32 | the port's decimal text, with its sign, parses back to the port |
| Text.IntToStringInjective | GenerateMailFromShelveset.cs:32 | different ports give different port texts |
| Text.ParseNatToString | GenerateMailFromShelveset.cs:32 | the digits of a natural number parse back to it |
| Text.NatToString | GenerateMailFromShelveset.cs:32 | the text is a nonempty string of digits with no leading zero: it starts with '0' only for 0, and that text is "0" |
| Text.IntToString | GenerateMailFromShelveset.cs:32 | invariant-culture decimal text of an `int`: '-' then the digits of the magnitude when negative, the digits otherwise; `IntToStringRoundTrip` and `IntToStringInjective` state that it loses nothing |
| Render.PortSuffix | GenerateMailFromShelveset.cs:32 | the port text is ':' followed by a decimal text that parses back to the port |
| CrmailProperties.PortSuffixExample | GenerateMailFromShelveset.cs:32 | port 8090 gives ":8090" |
| Crmail.SelectShelveset | GenerateMailFromShelveset.cs:78-87 | the query fails exactly when the server returns no shelveset; the failure names the requested shelveset; otherwise the first shelveset returned is used |
| Crmail.MailFromShelveset.GetShelveset | GenerateMailFromShelveset.cs:75-88 | returns what `SelectShelveset` gives for the server's answer to (name, owner) |
| Render.Reviewer | GenerateMailFromShelveset.cs:226-236 | null exactly when no check-in note field is named "Code Reviewer"; otherwise the value of the first such field |
| Crmail.MailFromShelveset.GetReviewer | GenerateMailFromShelveset.cs:226-236 | the loop with its early return computes `Reviewer` of the shelveset's check-in note fields |
| CrmailProperties.ReviewerExamples | GenerateMailFromShelveset.cs:228-235 | no fields give null; of two "Code Reviewer" fields the first wins; the name must match exactly, so "code reviewer" does not count |
| Crmail.MailFromShelveset.GenerateMailItem | GenerateMailFromShelveset.cs:95-107 | the subject is "CR: <area> name;owner", To is the reviewer, CC is the review alias, and the body is still empty |
| Crmail.Subject | GenerateMailFromShelveset.cs:100-101 | the subject is "CR: <area> ", the shelveset name, ';' and the owner name |
| Render.ReviewerCellText | GenerateMailFromShelveset.cs:128-130 | a nonempty reviewer is shown as it is; a null or empty reviewer is replaced by the not-present text |
| CrmailProperties.ReviewerRowWithoutReviewer | GenerateMailFromShelveset.cs:127-135 | without a reviewer the cell shows the not-present text; if that text is empty, the row has its label cell and no value cell |
| CrmailProperties.ReviewerRowWithReviewer | GenerateMailFromShelveset.cs:127-135 | a nonempty reviewer is shown in the reviewer cell |
| Render.HtmlEncode | GenerateMailFromShelveset.cs:241-251 | every line feed becomes "<BR>" and nothing else changes; no line feed is left; a comment without line feeds, the empty comment included, is unchanged |
| Text.ReplaceAllOneChar | GenerateMailFromShelveset.cs:249 | replacing the one-character string "\n" is character-by-character substitution |
| Text.SubstCharRemoves | GenerateMailFromShelveset.cs:249 | after the substitution the character is gone, provided the replacement does not contain it |
| Text.SubstCharAbsent | GenerateMailFromShelveset.cs:249 | a text without the character is unchanged |
| Text.SubstCharAppend | GenerateMailFromShelveset.cs:249 | the substitution works piece by piece over a concatenation |
| CrmailProperties.HtmlEncodeTwoLines | GenerateMailFromShelveset.cs:241-251 | two lines joined by a line feed are joined by "<BR>", and the lines themselves are unchanged ("fix\nbug" gives "fix<BR>bug") |
| Text.ReplaceAllAbsent | GenerateMailFromShelveset.cs:117-118 | `Replace` changes nothing when the old value does not occur |
| Text.ReplaceAllFirstOccurrence | GenerateMailFromShelveset.cs:117-118 | the first occurrence is replaced in place, and replacement goes on in the rest of the text |
| Text.NoOccurrenceBefore | GenerateMailFromShelveset.cs:117-118 | the old value cannot start inside a prefix that lacks its second character, whatever its first character is |
| Text.ReplaceAll | GenerateMailFromShelveset.cs:117-118 | ordinal `String.Replace`: from the left, each occurrence not overlapping an already replaced one is replaced; `ReplaceAllAbsent` and `ReplaceAllFirstOccurrence` characterise it |
| Render.WebUiBase | GenerateMailFromShelveset.cs:116-118 | every ":8080" in the server address is replaced by the port text; an address without ":8080" is used unchanged |
| CrmailProperties.WebUiBaseFirstServicePort | GenerateMailFromShelveset.cs:116-118 | the first ":8080" is replaced by the port text wherever it stands, and the rest is treated the same way |
| CrmailProperties.WebUiBaseOneServicePort | GenerateMailFromShelveset.cs:116-118 | an address with exactly one ":8080", after a host without '8' and followed by a path with no other ":8080", gets the port text in its place, and nothing else changes |
| CrmailProperties.WebUiBaseExample | GenerateMailFromShelveset.cs:116-118 | "http://tfs:8080/" with port 8090 gives "http://tfs:8090/" |
| Render.Classify | GenerateMailFromShelveset.cs:173-203 | a flag set holding Add is an add, whatever else it holds; the edit branch is taken exactly for the flag set {Edit} and the delete branch exactly for {Delete} |
| CrmailProperties.ClassifyExamples | GenerateMailFromShelveset.cs:173-203 | Add+Edit is an add; {Edit} is an edit; {Delete} is a delete; Edit+Encoding, Rename and the empty set take the last branch |
| CrmailProperties.AddBitWins | GenerateMailFromShelveset.cs:184-192 | a change with the Add bit renders as a plain add, whatever other bits it carries |
| Render.RenderChange | GenerateMailFromShelveset.cs:171-208 | a row exists exactly for a renderable change; a type name shorter than 3 raises the Substring exception; any other kind raises the format exception; a row starts with the first three letters of the type name |
| CrmailProperties.EditLinks | GenerateMailFromShelveset.cs:173-183 | an edit row holds the history link, the annotate link and the difference link labelled with the server path |
| CrmailProperties.AddLinks | GenerateMailFromShelveset.cs:184-192 | an add row has " H B " right after the abbreviation and holds the view-source link labelled with the server path |
| CrmailProperties.DeleteLinks | GenerateMailFromShelveset.cs:193-202 | a delete row holds the history link, the annotate link and the view-source link labelled with the server path |
| CrmailProperties.LinksOfRow | GenerateMailFromShelveset.cs:175-181 | the abbreviation, the two links and a path line together contain each of them |
| Render.HistoryUrl | GenerateMailFromShelveset.cs:175 | web UI address, "/history.aspx?item=" and the item id |
| Render.AnnotateUrl | GenerateMailFromShelveset.cs:176 | web UI address, "/ann.aspx?item=" and the item id |
| Render.DifferenceUrl | GenerateMailFromShelveset.cs:177-178 | web UI address, "/UI/Pages/Scc/Difference.aspx?oitem=", the item id, "&ocs=-1&mpcid=" and the pending change id |
| Render.ViewSourceUrl | GenerateMailFromShelveset.cs:187-188 | web UI address, "/UI/Pages/Scc/ViewSource.aspx?pcid=" and the pending change id |
| Render.HistoryLink | GenerateMailFromShelveset.cs:175 | " <a href=", the history URL and ">H</a> " |
| Render.AnnotateLink | GenerateMailFromShelveset.cs:176 | " <a href=", the annotate URL and ">B</a> " |
| Render.HistoryAndAnnotateLinks | GenerateMailFromShelveset.cs:175-176 | the history link followed by the annotate link |
| Render.PathLink | GenerateMailFromShelveset.cs:180-181 | the server path as the text of a link to the given URL |
| Render.ItemLink | GenerateMailFromShelveset.cs:180-181 | the path link followed by " <br>" and the line end that `AppendLine` writes |
| CrmailProperties.IntToStringExamples | GenerateMailFromShelveset.cs:175 | item 42 and change 7 are written "42" and "7" |
| CrmailProperties.HistoryUrlExample | GenerateMailFromShelveset.cs:175 | the history link of item 42 on http://tfs:8090 is http://tfs:8090/history.aspx?item=42 |
| Render.RenderChanges | GenerateMailFromShelveset.cs:166-210 | the listing succeeds exactly when every change is renderable; its failure is never "shelveset not found" |
| Render.RenderChangesErrorPersists | GenerateMailFromShelveset.cs:167-210 | once a change has raised, later changes do not change the outcome |
| CrmailProperties.RenderChangesInOrder | GenerateMailFromShelveset.cs:167-210 | the listing is the row of every change, in the order of the changes |
| CrmailProperties.RenderChangesFirstError | GenerateMailFromShelveset.cs:167-210 | the first change that cannot be rendered decides the exception |
| VersionControl.Flatten | GenerateMailFromShelveset.cs:167-169 | the pending changes of all pending sets, set after set, each in its own order: the order the nested loops visit them (`FlattenAppend`, `FlattenCons`) |
| VersionControl.FlattenAppend | GenerateMailFromShelveset.cs:167-169 | visiting the pending sets in two parts visits their changes in the same order |
| VersionControl.FlattenCons | GenerateMailFromShelveset.cs:167-169 | the first pending set's changes come before all others |
| Crmail.AbortsPendingSet | GenerateMailFromShelveset.cs:169-208 | a change that raises ends the listing of its pending set with its own exception |
| Crmail.AbortsLaterSets | GenerateMailFromShelveset.cs:167-210 | a change that raises in one pending set ends the listing of all pending sets |
| Crmail.MailFromShelveset.RenderPendingSets | GenerateMailFromShelveset.cs:166-210 | the nested loops compute `RenderChanges` over all changes of all pending sets in order, returning at the first exception |
| Render.WorkItemUrl | GenerateMailFromShelveset.cs:157-158 | the raw server address, "WorkItemTracking/Workitem.aspx?artifactMoniker=" and the work item id |
| Render.WorkItemLink | GenerateMailFromShelveset.cs:157-158 | a link to the work item URL labelled with the id, then a space, the title and "<br>\n" |
| Render.WorkItemLinks | GenerateMailFromShelveset.cs:155-159 | the links of all work items, in order; `WorkItemLinksListEvery` states that each one is there |
| CrmailProperties.WorkItemLinksListEvery | GenerateMailFromShelveset.cs:155-159 | every work item of the shelveset gets its link in the bugs cell |
| CrmailProperties.WorkItemLinkTarget | GenerateMailFromShelveset.cs:157-158 | a work item link is the raw server address followed directly by the work-item page and the id, with no separator and no port change |
| CrmailProperties.EmptyDescriptionRow | GenerateMailFromShelveset.cs:148-150 | an empty comment still gives a description row, with an empty value cell |
| CrmailProperties.EmptyBugsCell | GenerateMailFromShelveset.cs:153-161 | without work items the bugs cell is still opened and closed |
| CrmailProperties.BodyHeadLinksShelveset | GenerateMailFromShelveset.cs:141-145 | the body links to the shelveset page, name;owner, of the web UI |
| Render.TableStart | GenerateMailFromShelveset.cs:123-124 | "<p" and the table tag, each on its own line |
| Render.ReviewerRow | GenerateMailFromShelveset.cs:127-135 | the reviewer label cell, then a value cell with the reviewer cell text, left out when that text is empty (`ReviewerRowWithReviewer`, `ReviewerRowWithoutReviewer`) |
| Render.ServerRow | GenerateMailFromShelveset.cs:138-139 | the "TFS Server" row with the raw server address, with no line end |
| Render.ShelvesetUrl | GenerateMailFromShelveset.cs:141 | web UI address, "/ss.aspx?ss=", name, ';' and owner |
| Render.ShelvesetLink | GenerateMailFromShelveset.cs:141 | `name;owner` as the text of a quoted link to the shelveset URL |
| Render.ShelvesetRow | GenerateMailFromShelveset.cs:141-145 | the "Shelveset" row holding the shelveset link, with no line end |
| Render.DescriptionRow | GenerateMailFromShelveset.cs:148-150 | the description label and the encoded comment, ended by "\n" (`EmptyDescriptionRow`) |
| Render.BugsRowStart | GenerateMailFromShelveset.cs:153-154 | the bugs label and the opening of its value cell, ended by "\n" |
| Render.BugsRowEnd | GenerateMailFromShelveset.cs:161 | the end of the bugs row and a line end |
| Render.FilesRowStart | GenerateMailFromShelveset.cs:164-165 | the "File(s)" label and the opening of the files cell, each on its own line |
| Render.TableEnd | GenerateMailFromShelveset.cs:212-219 | the end of the files row, the empty "Tests Run" and "Tests Added/Fixed" rows, and "</table>", each on its own line |
| Render.BodyHead | GenerateMailFromShelveset.cs:123-165 | the rows before the changes, in the source's order: table start, reviewer, server, shelveset, description, bugs (with the work item links) and the files row start |
| Render.MailBody | GenerateMailFromShelveset.cs:114-221 | a body exists exactly when every pending change of every pending set is renderable; its failure is never "shelveset not found" |
| CrmailProperties.MailBodyLayout | GenerateMailFromShelveset.cs:123-219 | a body is the head rows, then every change's row in pending-set order, then the closing rows |
| CrmailProperties.MailBodyFirstError | GenerateMailFromShelveset.cs:166-210 | when some change cannot be rendered, the body fails with the first such change's exception |
| Crmail.MailFromShelveset.GenerateMailBody | GenerateMailFromShelveset.cs:114-221 | the method's loops and its assembly compute `MailBody` for the shelveset and its shelved changes |
| Crmail.ComposeMail | GenerateMailFromShelveset.cs:56-63 | the run fails with "not found" exactly when the query returns nothing; a mail exists exactly when a shelveset is found and all its changes are renderable; its subject, To, CC and body are those of the first shelveset found |
| Crmail.MailFromShelveset.GenerateMail | GenerateMailFromShelveset.cs:56-63 | the method computes `ComposeMail` for the name, owner, alias and port text the constructor stored |

## Left out

- Outlook: creating the `MailItem` through COM, setting `BodyFormat`, and `Display`. `GenerateMail` returns the mail instead of showing it. The COM object that line 99 creates before a failing body is not modelled.
- `Console.WriteLine` progress messages and the localized `Resources` strings. The four resource strings that appear in the body are a `Resources` parameter. The message text of the not-found exception is not modelled; the error carries the shelveset name.
- The network: `QueryShelvesets` and `QueryShelvedChanges` are total functions of the `VersionControlServer` value. Network failures and their exceptions are not modelled.
- `Program.cs` (argument handling, configuration of port and alias) and `TfServerUtil.cs` (connecting to the server) are not part of this model.
- The server address is the string that `Uri.ToString()` returns. `System.Uri` normalisation is not modelled, and the TFS Server row and the work item links use the same string.
- Environment.NewLine, which `AppendLine` writes, is "\r\n" (Windows).
- A null shelveset comment is modelled as the empty string, which `HtmlEncode` also maps to "".
- Constructor: .NET `int` is 32 bits wide. The model takes any integer port; every 32-bit value is among them.
- Render.Classify: the change-type flag set is a set over the flags that matter here plus a few others (`Encoding`, `Rename`, …). The numeric values of the .NET enum are not modelled.
- Crmail.MailFromShelveset.GenerateMailBody: the source appends every piece to one `StringBuilder`. The method collects the work item links and the rows of the pending changes in two strings and joins everything at the end; the text is the same. The `StringBuilder` capacity (0x400) has no effect on the text.
- CrmailProperties.EditLinks: states that each link occurs in the row, not that it occurs once, because the web address and the server path are arbitrary strings that may themselves contain the link text, so "exactly once" does not hold for every input.
- Text.IntToString: writes invariant-culture digits, as line 32 asks for the port; the ids at lines 157, 175-178, 187-188 and 195-198 are formatted with no culture argument, under the current culture, which gives the same digits for the non-negative ids the server hands out but may differ for a negative number under a culture with another negative sign.
- Render.RenderChange: string lengths and the three-character prefix of the change-type name count Unicode scalar values, while .NET `Length` and `Substring(0, 3)` at line 171 count UTF-16 code units; the two agree whenever the first three characters of the name lie in the Basic Multilingual Plane, as the server's change-type names do, but a name such as "a" followed by one character outside it has three code units in .NET and only two characters here, so the model reports `SubstringOutOfRange` where .NET renders the row. The same difference reaches `RenderChanges`, `MailBody` and `ComposeMail` through `Renderable`.
