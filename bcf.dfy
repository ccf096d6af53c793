/**
 * The BCF 2.1 package builder of lib/bcf.rb: a `bcf.version` manifest, one
 * `<guid>/markup.bcf` per work package, and a `.bcfzip` archive holding
 * them under their names relative to a temporary directory.
 *
 * XML documents are trees (module Xml); the archive is the list of its
 * entries; the temporary directory is a small file system object whose
 * `Mkdir` refuses a path that already exists.
 */
module Bcf {
  import opened Wrappers
  import opened Decimal
  import opened Strings
  import opened Xml
  import opened Timestamps

  // ---------------------------------------------------------------------
  // The work package data the exporter reads
  // ---------------------------------------------------------------------

  datatype CustomField = CustomField(name: string)

  /** A custom value of a work package; its value may be nil. */
  datatype CustomValue = CustomValue(field: CustomField, value: Option<string>)

  /** A journal entry; `userMail` is the mail of the user who wrote it. */
  datatype Journal = Journal(id: nat, userMail: string, notes: string, createdAt: DateTime)

  /**
   * The work package columns the exporter reads. `TopicsApi.WorkPackage` is
   * another view of the same record; its GUID map holds the value of the
   * first "GUID" custom value here.
   */
  datatype WorkPackage = WorkPackage(
    id: nat,
    subject: string,
    description: string,
    typeName: string,
    statusName: string,
    authorMail: string,
    createdAt: DateTime,
    updatedAt: DateTime,
    customValues: seq<CustomValue>,
    journals: seq<Journal>)

  // ---------------------------------------------------------------------
  // GUIDs: work_package_guid and comment_guid
  // ---------------------------------------------------------------------

  /** What `work_package_guid` returns: the value of a GUID custom value (possibly nil), or the numeric id. */
  datatype Guid = FieldValue(value: Option<string>) | NumericId(id: nat)

  const GuidFieldName: string := "GUID"

  /** The position of the first custom value whose field is named "GUID". */
  function FirstGuidValue(values: seq<CustomValue>): (r: Option<nat>)
    ensures r.Some? ==> r.value < |values| && values[r.value].field.name == GuidFieldName
    ensures r.Some? ==> forall k :: 0 <= k < r.value ==> values[k].field.name != GuidFieldName
    ensures r.None? <==> forall k :: 0 <= k < |values| ==> values[k].field.name != GuidFieldName
    decreases |values|
  {
    if values == [] then None
    else if values[0].field.name == GuidFieldName then Some(0)
    else
      match FirstGuidValue(values[1..])
      case None => None
      case Some(k) => Some(k + 1)
  }

  /** The GUID of a work package: its first GUID custom value, else its id. */
  function GuidOf(wp: WorkPackage): (g: Guid)
    ensures g.NumericId? <==> forall k :: 0 <= k < |wp.customValues| ==> wp.customValues[k].field.name != GuidFieldName
    ensures g.NumericId? ==> g.id == wp.id
  {
    match FirstGuidValue(wp.customValues)
    case Some(k) => FieldValue(wp.customValues[k].value)
    case None => NumericId(wp.id)
  }

  /** The GUID resolution of work_package_guid, as the loop with an early return it is. */
  method WorkPackageGuid(wp: WorkPackage) returns (g: Guid)
    ensures g == GuidOf(wp)
    ensures g.NumericId? <==> forall k :: 0 <= k < |wp.customValues| ==> wp.customValues[k].field.name != GuidFieldName
    ensures g.NumericId? ==> g.id == wp.id
    ensures g.FieldValue? ==> exists k :: (0 <= k < |wp.customValues|
      && wp.customValues[k].field.name == GuidFieldName && wp.customValues[k].value == g.value
      && forall j :: 0 <= j < k ==> wp.customValues[j].field.name != GuidFieldName)
  {
    var values := wp.customValues;
    for i := 0 to |values|
      invariant forall k :: 0 <= k < i ==> values[k].field.name != GuidFieldName
    {
      if values[i].field.name == GuidFieldName {
        return FieldValue(values[i].value);
      }
    }
    return NumericId(wp.id);
  }

  /** A GUID as string interpolation writes it: nil becomes "", an id its decimal digits. */
  function GuidText(g: Guid): string
  {
    match g
    case FieldValue(None) => ""
    case FieldValue(Some(s)) => s
    case NumericId(n) => NatToString(n)
  }

  /** `comment_guid`: a journal's id, as text. */
  function CommentGuid(j: Journal): (s: string)
    ensures AllDigits(s) && ParseDigits(s) == j.id
  {
    ParseNatToString(j.id);
    NatToString(j.id)
  }

  // ---------------------------------------------------------------------
  // The XML documents: manifest, work_package, topic, comment
  // ---------------------------------------------------------------------

  const XsiNamespace: (string, string) := ("xmlns:xsi", "http://www.w3.org/2001/XMLSchema-instance")
  const XsdNamespace: (string, string) := ("xmlns:xsd", "http://www.w3.org/2001/XMLSchema")
  const BcfVersion: string := "2.1"

  /** `manifest`: the generated comment, then `<Version VersionId="2.1"><DetailedVersion>2.1</DetailedVersion></Version>`. */
  function Manifest(createdBy: string): Document
  {
    Document([
      Comment(createdBy),
      Element("Version", [XsiNamespace, XsdNamespace, ("VersionId", BcfVersion)],
              [Leaf("DetailedVersion", BcfVersion)])])
  }

  /** `topic`: the Topic element; Index is written only when an index is given, 0 included. */
  function Topic(wp: WorkPackage, index: Option<nat>): Node
  {
    var indexElement := if index.Some? then [Leaf("Index", NatToString(index.value))] else [];
    Element("Topic",
      [("Guid", GuidText(GuidOf(wp))), ("TopicType", wp.typeName), ("TopicStatus", wp.statusName)],
      [Leaf("Title", wp.subject)]
      + indexElement
      + [Leaf("CreationDate", FormatDateTime(wp.createdAt)),
         Leaf("ModifiedDate", FormatDateTime(wp.updatedAt)),
         Leaf("CreationAuthor", wp.authorMail),
         Leaf("Description", wp.description)])
  }

  /** `comment`: a Comment element for a journal; its Author is the work package's author. */
  function CommentElement(j: Journal, wp: WorkPackage): Node
  {
    Element("Comment", [("Guid", CommentGuid(j))],
      [Leaf("Date", FormatDateTime(j.createdAt)),
       Leaf("Author", wp.authorMail),
       Leaf("Comment", j.notes)])
  }

  /** `journals.reject { |j| j.notes.empty? }`. */
  function WithNotes(js: seq<Journal>): (r: seq<Journal>)
    ensures |r| <= |js|
    ensures forall k :: 0 <= k < |r| ==> r[k].notes != ""
    ensures forall j :: j in r <==> j in js && j.notes != ""
  {
    if js == [] then []
    else if js[0].notes == "" then WithNotes(js[1..])
    else [js[0]] + WithNotes(js[1..])
  }

  /** The comment elements for a list of journals, in that order. */
  function CommentElements(js: seq<Journal>, wp: WorkPackage): (r: seq<Node>)
    ensures |r| == |js|
  {
    if js == [] then [] else [CommentElement(js[0], wp)] + CommentElements(js[1..], wp)
  }

  /** `work_package`: the generated comment, then a Markup root with the Topic and one Comment per journal with notes. */
  function WorkPackageMarkup(wp: WorkPackage, index: Option<nat>, createdBy: string): Document
  {
    Document([
      Comment(createdBy),
      Element("Markup", [XsiNamespace, XsdNamespace],
              [Topic(wp, index)] + CommentElements(WithNotes(wp.journals), wp))])
  }

  // ---------------------------------------------------------------------
  // Reading the documents back, in the element order lib/bcf.rb writes:
  // readers whose round-trip lemmas show the documents carry their data.
  // ---------------------------------------------------------------------

  datatype TopicInfo = TopicInfo(
    guid: string, topicType: string, topicStatus: string, title: string, index: Option<nat>,
    creationDate: string, modifiedDate: string, creationAuthor: string, description: string)

  datatype CommentInfo = CommentInfo(guid: string, date: string, author: string, text: string)

  datatype MarkupInfo = MarkupInfo(topic: TopicInfo, comments: seq<CommentInfo>)

  /** What a markup's topic should say about a work package. */
  function TopicInfoOf(wp: WorkPackage, index: Option<nat>): TopicInfo
  {
    TopicInfo(GuidText(GuidOf(wp)), wp.typeName, wp.statusName, wp.subject, index,
              FormatDateTime(wp.createdAt), FormatDateTime(wp.updatedAt), wp.authorMail, wp.description)
  }

  /** What a comment should say about a journal: the work package's author, not the journal's user. */
  function CommentInfoOf(j: Journal, wp: WorkPackage): CommentInfo
  {
    CommentInfo(CommentGuid(j), FormatDateTime(j.createdAt), wp.authorMail, j.notes)
  }

  function CommentInfos(js: seq<Journal>, wp: WorkPackage): (r: seq<CommentInfo>)
    ensures |r| == |js|
  {
    if js == [] then [] else [CommentInfoOf(js[0], wp)] + CommentInfos(js[1..], wp)
  }

  /** `<name>text</name>`: an element without attributes whose one child is a text node. */
  predicate IsLeaf(n: Node, name: string)
  {
    n.Element? && n.name == name && n.attrs == [] && |n.children| == 1 && n.children[0].Text?
  }

  function LeafText(n: Node): string
    requires n.Element? && |n.children| == 1 && n.children[0].Text?
  {
    n.children[0].text
  }

  const TopicChildren: seq<string> :=
    ["Title", "CreationDate", "ModifiedDate", "CreationAuthor", "Description"]
  const IndexedTopicChildren: seq<string> :=
    ["Title", "Index", "CreationDate", "ModifiedDate", "CreationAuthor", "Description"]

  /** The child list of a Topic after the Title and the optional Index, in the order lib/bcf.rb writes it. */
  predicate TopicTail(cs: seq<Node>)
  {
    |cs| == 4 && IsLeaf(cs[0], "CreationDate") && IsLeaf(cs[1], "ModifiedDate")
    && IsLeaf(cs[2], "CreationAuthor") && IsLeaf(cs[3], "Description")
  }

  /** Reads a Topic element: its three attributes and its children in the order lib/bcf.rb writes, Index optional. */
  function ReadTopic(n: Node): Option<TopicInfo>
  {
    if !(n.Element? && n.name == "Topic") then None
    else
      var guid, topicType, topicStatus := Attr(n, "Guid"), Attr(n, "TopicType"), Attr(n, "TopicStatus");
      var cs := n.children;
      if guid.None? || topicType.None? || topicStatus.None? || |cs| == 0 || !IsLeaf(cs[0], "Title") then None
      else if |cs| == 6 && IsLeaf(cs[1], "Index") && AllDigits(LeafText(cs[1])) && TopicTail(cs[2..]) then
        Some(TopicInfo(guid.value, topicType.value, topicStatus.value, LeafText(cs[0]),
                       Some(ParseDigits(LeafText(cs[1]))),
                       LeafText(cs[2]), LeafText(cs[3]), LeafText(cs[4]), LeafText(cs[5])))
      else if |cs| == 5 && TopicTail(cs[1..]) then
        Some(TopicInfo(guid.value, topicType.value, topicStatus.value, LeafText(cs[0]), None,
                       LeafText(cs[1]), LeafText(cs[2]), LeafText(cs[3]), LeafText(cs[4])))
      else None
  }

  /** Reads a Comment element: its Guid attribute, then Date, Author and the Comment text. */
  function ReadComment(n: Node): Option<CommentInfo>
  {
    if !(n.Element? && n.name == "Comment") then None
    else
      var guid := Attr(n, "Guid");
      var cs := n.children;
      if guid.None? || |cs| != 3 || !IsLeaf(cs[0], "Date") || !IsLeaf(cs[1], "Author") || !IsLeaf(cs[2], "Comment")
      then None
      else Some(CommentInfo(guid.value, LeafText(cs[0]), LeafText(cs[1]), LeafText(cs[2])))
  }

  function ReadComments(ns: seq<Node>): Option<seq<CommentInfo>>
  {
    if ns == [] then Some([])
    else
      match (ReadComment(ns[0]), ReadComments(ns[1..]))
      case (Some(c), Some(cs)) => Some([c] + cs)
      case _ => None
  }

  /** Reads a markup document: a comment, then a Markup root holding one Topic followed only by Comments. */
  function ReadMarkup(d: Document): Option<MarkupInfo>
  {
    if |d.nodes| != 2 || !d.nodes[0].Comment? then None
    else
      var root := d.nodes[1];
      if !(root.Element? && root.name == "Markup" && |root.children| >= 1) then None
      else
        match (ReadTopic(root.children[0]), ReadComments(root.children[1..]))
        case (Some(t), Some(cs)) => Some(MarkupInfo(t, cs))
        case _ => None
  }

  /** Reads a manifest: a comment, then a Version root with its VersionId and one DetailedVersion. */
  function ReadManifest(d: Document): Option<(string, string)>
  {
    if |d.nodes| != 2 || !d.nodes[0].Comment? then None
    else
      var root := d.nodes[1];
      if !(root.Element? && root.name == "Version") then None
      else
        var id := Attr(root, "VersionId");
        var cs := root.children;
        if id.None? || |cs| != 1 || !IsLeaf(cs[0], "DetailedVersion") then None
        else Some((id.value, LeafText(cs[0])))
  }

  // ---------------------------------------------------------------------
  // Properties of the documents
  // ---------------------------------------------------------------------

  /** The manifest declares version 2.1 twice, as VersionId and as DetailedVersion, after the generated comment. */
  lemma ManifestDeclaresVersion(createdBy: string)
    ensures ReadManifest(Manifest(createdBy)) == Some(("2.1", "2.1"))
    ensures Manifest(createdBy).nodes[0] == Comment(createdBy)
  {
    var root := Manifest(createdBy).nodes[1];
    AttrAt(root.attrs, 2, "VersionId");
  }

  /** A Topic reads back as the work package's data, with Index present exactly when an index is given. */
  lemma TopicRoundTrip(wp: WorkPackage, index: Option<nat>)
    ensures ReadTopic(Topic(wp, index)) == Some(TopicInfoOf(wp, index))
    ensures Names(Topic(wp, index).children) == if index.Some? then IndexedTopicChildren else TopicChildren
  {
    if index.Some? {
      ParseNatToString(index.value);
    }
    TopicReads(GuidText(GuidOf(wp)), wp.typeName, wp.statusName, wp.subject, index,
               FormatDateTime(wp.createdAt), FormatDateTime(wp.updatedAt), wp.authorMail, wp.description);
  }

  /** The three attributes of a Topic element read back as written. */
  lemma TopicAttrs(guid: string, topicType: string, topicStatus: string)
    ensures var attrs := [("Guid", guid), ("TopicType", topicType), ("TopicStatus", topicStatus)];
      && AttrIn(attrs, "Guid") == Some(guid)
      && AttrIn(attrs, "TopicType") == Some(topicType)
      && AttrIn(attrs, "TopicStatus") == Some(topicStatus)
  {
    var attrs := [("Guid", guid), ("TopicType", topicType), ("TopicStatus", topicStatus)];
    AttrAt(attrs, 0, "Guid");
    AttrAt(attrs, 1, "TopicType");
    AttrAt(attrs, 2, "TopicStatus");
  }

  /** The Topic element of any field values reads back as those values. */
  lemma TopicReads(guid: string, topicType: string, topicStatus: string, title: string, index: Option<nat>,
                   created: string, modified: string, author: string, description: string)
    requires index.Some? ==> ParseDigits(NatToString(index.value)) == index.value
    ensures var n := Element("Topic",
        [("Guid", guid), ("TopicType", topicType), ("TopicStatus", topicStatus)],
        [Leaf("Title", title)]
        + (if index.Some? then [Leaf("Index", NatToString(index.value))] else [])
        + [Leaf("CreationDate", created), Leaf("ModifiedDate", modified),
           Leaf("CreationAuthor", author), Leaf("Description", description)]);
      && ReadTopic(n) == Some(TopicInfo(guid, topicType, topicStatus, title, index, created, modified, author, description))
      && Names(n.children) == if index.Some? then IndexedTopicChildren else TopicChildren
  {
    TopicAttrs(guid, topicType, topicStatus);
    var tail := [Leaf("CreationDate", created), Leaf("ModifiedDate", modified),
                 Leaf("CreationAuthor", author), Leaf("Description", description)];
    assert TopicTail(tail);
    if index.Some? {
      var cs := [Leaf("Title", title)] + [Leaf("Index", NatToString(index.value))] + tail;
      assert cs[2..] == tail;
      assert Names(cs) == IndexedTopicChildren;
    } else {
      var cs := [Leaf("Title", title)] + [] + tail;
      assert cs[1..] == tail;
      assert Names(cs) == TopicChildren;
    }
  }

  /** A Comment reads back as its journal's id, UTC date and notes, authored by the work package's author. */
  lemma CommentRoundTrip(j: Journal, wp: WorkPackage)
    ensures ReadComment(CommentElement(j, wp)) == Some(CommentInfoOf(j, wp))
  {
    CommentReads(CommentGuid(j), FormatDateTime(j.createdAt), wp.authorMail, j.notes);
  }

  /** The Comment element of any field values reads back as those values. */
  lemma CommentReads(guid: string, date: string, author: string, text: string)
    ensures ReadComment(Element("Comment", [("Guid", guid)], [Leaf("Date", date), Leaf("Author", author), Leaf("Comment", text)]))
      == Some(CommentInfo(guid, date, author, text))
  {
    AttrAt([("Guid", guid)], 0, "Guid");
  }

  lemma {:induction false} CommentsRoundTrip(js: seq<Journal>, wp: WorkPackage)
    ensures ReadComments(CommentElements(js, wp)) == Some(CommentInfos(js, wp))
  {
    if js != [] {
      var ns := CommentElements(js, wp);
      assert ns[0] == CommentElement(js[0], wp);
      assert ns[1..] == CommentElements(js[1..], wp);
      CommentRoundTrip(js[0], wp);
      CommentsRoundTrip(js[1..], wp);
    }
  }

  /**
   * A markup document reads back as its work package's topic followed by
   * one comment per journal with notes, in journal order.
   */
  lemma MarkupRoundTrip(wp: WorkPackage, index: Option<nat>, createdBy: string)
    ensures ReadMarkup(WorkPackageMarkup(wp, index, createdBy))
      == Some(MarkupInfo(TopicInfoOf(wp, index), CommentInfos(WithNotes(wp.journals), wp)))
  {
    var root := WorkPackageMarkup(wp, index, createdBy).nodes[1];
    assert root.children[1..] == CommentElements(WithNotes(wp.journals), wp);
    TopicRoundTrip(wp, index);
    CommentsRoundTrip(WithNotes(wp.journals), wp);
  }

  /** Journal filtering keeps order: filtering a concatenation concatenates the filtered parts. */
  lemma {:induction false} WithNotesAppend(a: seq<Journal>, b: seq<Journal>)
    ensures WithNotes(a + b) == WithNotes(a) + WithNotes(b)
  {
    if a != [] {
      assert (a + b)[1..] == a[1..] + b;
      WithNotesAppend(a[1..], b);
    } else {
      assert a + b == b;
    }
  }

  /**
   * The comments a markup document reads back as (MarkupRoundTrip) are one
   * per journal with notes, each with non-empty text and the work package's
   * author.
   */
  lemma MarkupCommentsHaveNotes(wp: WorkPackage)
    ensures var cs := CommentInfos(WithNotes(wp.journals), wp);
      && |cs| == |WithNotes(wp.journals)|
      && forall k :: 0 <= k < |cs| ==> cs[k].text != "" && cs[k].author == wp.authorMail
  {
    var js := WithNotes(wp.journals);
    forall k | 0 <= k < |js|
      ensures CommentInfos(js, wp)[k].text != "" && CommentInfos(js, wp)[k].author == wp.authorMail
    {
      CommentInfoAt(js, wp, k, js[k]);
    }
  }

  /** The k-th comment read back belongs to the k-th journal, `j`. */
  lemma {:induction false} CommentInfoAt(js: seq<Journal>, wp: WorkPackage, k: nat, j: Journal)
    requires k < |js| && js[k] == j
    ensures CommentInfos(js, wp)[k] == CommentInfoOf(j, wp)
    decreases k
  {
    if k == 0 {
      CommentInfosHead(js, wp);
    } else {
      assert js[1..][k - 1] == j;
      CommentInfoAt(js[1..], wp, k - 1, j);
      CommentInfosTail(js, wp, k);
    }
  }

  lemma CommentInfosHead(js: seq<Journal>, wp: WorkPackage)
    requires 0 < |js|
    ensures CommentInfos(js, wp)[0] == CommentInfoOf(js[0], wp)
  {
  }

  lemma CommentInfosTail(js: seq<Journal>, wp: WorkPackage, k: nat)
    requires 0 < k < |js|
    ensures CommentInfos(js, wp)[k] == CommentInfos(js[1..], wp)[k - 1]
  {
  }

  /** One work package with an empty-note journal and a journal with notes: one Topic and one Comment. */
  lemma OneTopicOneComment(wp: WorkPackage, index: Option<nat>, createdBy: string)
    requires |wp.journals| == 2 && wp.journals[0].notes == "" && wp.journals[1].notes != ""
    ensures var root := WorkPackageMarkup(wp, index, createdBy).nodes[1];
      Names(root.children) == ["Topic", "Comment"]
  {
    var j := wp.journals[1];
    SecondHasNotes(wp.journals);
    OneCommentElement(j, wp);
    TopicThenComment(Topic(wp, index), CommentElement(j, wp));
  }

  /** Of two journals, only the second with notes: the filter keeps just that one. */
  lemma SecondHasNotes(js: seq<Journal>)
    requires |js| == 2 && js[0].notes == "" && js[1].notes != ""
    ensures WithNotes(js) == [js[1]]
  {
    assert js == [js[0]] + [js[1]];
    WithNotesAppend([js[0]], [js[1]]);
    assert WithNotes([js[0]]) == [];
    assert [js[1]][1..] == [];
  }

  lemma OneCommentElement(j: Journal, wp: WorkPackage)
    ensures CommentElements([j], wp) == [CommentElement(j, wp)]
  {
    assert [j][1..] == [];
  }

  lemma TopicThenComment(t: Node, c: Node)
    requires t.Element? && t.name == "Topic" && c.Element? && c.name == "Comment"
    ensures Names([t] + [c]) == ["Topic", "Comment"]
  {
    assert [t] + [c] == [t, c];
  }

  // ---------------------------------------------------------------------
  // The temporary directory
  // ---------------------------------------------------------------------

  /** Paths are built by interpolation, `"#{root}/#{x}"`: different names give different paths. */
  lemma JoinInjective(root: string, x: string, y: string)
    ensures root + "/" + x == root + "/" + y <==> x == y
    ensures root + "/" + x != root
  {
    if root + "/" + x == root + "/" + y {
      assert (root + "/" + x)[|root| + 1..] == x;
      assert (root + "/" + y)[|root| + 1..] == y;
    }
  }

  /** The names inside a fresh temporary directory that already resolve to directories. */
  const InitialDirs: set<string> := {"", ".", ".."}

  /** The directories of a fresh `Dir.mktmpdir`: the directory itself, and `root/`, `root/.`, `root/..`. */
  function InitialTree(root: string): set<string>
  {
    {root, root + "/" + "", root + "/" + ".", root + "/" + ".."}
  }

  lemma InitialTreeMember(root: string, x: string)
    ensures root + "/" + x in InitialTree(root) <==> x in InitialDirs
    ensures root in InitialTree(root)
  {
    JoinInjective(root, x, "");
    JoinInjective(root, x, ".");
    JoinInjective(root, x, "..");
  }

  /**
   * The directory `Dir.mktmpdir` returns, as a file system: the paths that
   * are directories and the files with their contents. Paths are compared
   * as strings.
   */
  class TempDir {
    const root: string
    var dirs: set<string>
    var files: map<string, Document>

    constructor (root: string)
      ensures this.root == root
      ensures dirs == InitialTree(root) && files == map[]
    {
      this.root := root;
      dirs := InitialTree(root);
      files := map[];
    }

    predicate Exists(path: string)
      reads this
    {
      path in dirs || path in files
    }

    /** `Dir.mkdir`: refuses a path that already exists, as a directory or as a file. */
    method Mkdir(path: string) returns (ok: bool)
      modifies this
      ensures ok == !old(Exists(path))
      ensures dirs == if ok then old(dirs) + {path} else old(dirs)
      ensures files == old(files)
    {
      ok := !Exists(path);
      if ok {
        dirs := dirs + {path};
      }
    }

    /** `File.open(path, "w") { |f| f.write … }`: refuses a path that is a directory. */
    method Write(path: string, content: Document) returns (ok: bool)
      modifies this
      ensures ok == (path !in old(dirs))
      ensures files == if ok then old(files)[path := content] else old(files)
      ensures dirs == old(dirs)
    {
      ok := path !in dirs;
      if ok {
        files := files[path := content];
      }
    }
  }

  // ---------------------------------------------------------------------
  // The package: create_bcf_file!
  // ---------------------------------------------------------------------

  const ManifestName: string := "bcf.version"
  const MarkupFile: string := "/markup.bcf"
  const ArchiveSuffix: string := ".bcfzip"

  /** The archive file name: `.bcfzip` is appended unless the name already ends with it. */
  function BcfzipName(fileName: string): (r: string)
    ensures EndsWith(r, ArchiveSuffix)
    ensures EndsWith(fileName, ArchiveSuffix) ==> r == fileName
    ensures !EndsWith(fileName, ArchiveSuffix) ==> r == fileName + ArchiveSuffix
  {
    if EndsWith(fileName, ArchiveSuffix) then fileName
    else
      EndsWithAppended(fileName, ArchiveSuffix);
      fileName + ArchiveSuffix
  }

  lemma BcfzipNameIdempotent(fileName: string)
    ensures BcfzipName(BcfzipName(fileName)) == BcfzipName(fileName)
  {
  }

  /** An entry of the archive: its name and the document stored under it. */
  datatype Entry = Entry(name: string, content: Document)

  /** The archive written at `zipPath`, with its entries in the order they were added. */
  datatype Package = Package(zipPath: string, entries: seq<Entry>)

  datatype ExportError =
    | PathExists(path: string)            // Dir.mkdir: the path exists, as a directory or a file
    | IsADirectory(path: string)          // File.open for writing: the path is a directory
    | ZipTargetIsDirectory(path: string)  // Zip::File.open: the archive path is a directory
    | NoContainer                         // work_packages.first is nil

  /** The GUID texts of the work packages, in order. */
  function Guids(wps: seq<WorkPackage>): (gs: seq<string>)
    ensures |gs| == |wps|
    decreases |wps|
  {
    if wps == [] then []
    else Guids(wps[..|wps| - 1]) + [GuidText(GuidOf(wps[|wps| - 1]))]
  }

  /** The i-th GUID is that of the i-th work package. */
  lemma {:induction false} GuidsAt(wps: seq<WorkPackage>, i: nat)
    requires i < |wps|
    ensures Guids(wps)[i] == GuidText(GuidOf(wps[i]))
    decreases |wps|
  {
    if i < |wps| - 1 {
      GuidsAt(wps[..|wps| - 1], i);
    }
  }

  /** `g` is the markup file name of one of the `earlier` GUIDs. */
  predicate IsMarkupOf(g: string, earlier: seq<string>)
  {
    EndsWith(g, MarkupFile) && g[..|g| - |MarkupFile|] in earlier
  }

  /** `mkdir` of GUID `g` after the `earlier` ones fails: the name is taken by a directory or a file. */
  predicate MkdirFails(g: string, earlier: seq<string>)
  {
    g in InitialDirs || g in earlier || g == ManifestName || IsMarkupOf(g, earlier)
  }

  /**
   * Writing the markup of GUID `g` fails: a directory already has its path.
   * The names of the fresh tree are too short to be a markup path.
   */
  predicate WriteFails(g: string, earlier: seq<string>)
  {
    g + MarkupFile in earlier
  }

  predicate Clashes(gs: seq<string>, i: nat)
    requires i < |gs|
  {
    MkdirFails(gs[i], gs[..i]) || WriteFails(gs[i], gs[..i])
  }

  /** The first work package whose directory or markup cannot be created. */
  function FirstClash(gs: seq<string>, from: nat): (r: Option<nat>)
    requires from <= |gs|
    ensures r.Some? ==> from <= r.value < |gs| && Clashes(gs, r.value)
    ensures r.Some? ==> forall k :: from <= k < r.value ==> !Clashes(gs, k)
    ensures r.None? <==> forall k :: from <= k < |gs| ==> !Clashes(gs, k)
    decreases |gs| - from
  {
    if from == |gs| then None
    else if Clashes(gs, from) then Some(from)
    else FirstClash(gs, from + 1)
  }

  /** The error of the first GUID whose directory or markup cannot be created, if any. */
  function ClashError(tmp: string, gs: seq<string>): (r: Option<ExportError>)
    ensures r.None? <==> FirstClash(gs, 0).None?
  {
    match FirstClash(gs, 0)
    case None => None
    case Some(i) =>
      if MkdirFails(gs[i], gs[..i]) then Some(PathExists(tmp + "/" + gs[i]))
      else Some(IsADirectory(tmp + "/" + gs[i] + MarkupFile))
  }

  /** How the loop of create_bcf_file! renders the i-th work package's markup. */
  type Renderer = (WorkPackage, nat) -> Document

  /** The manifest is the 0-th document written, the i-th work package's markup the (i + 1)-th. */
  function DocumentNumber(i: nat): nat
  {
    i + 1
  }

  /** `work_package(wp, index: i)`, with the generated comment of its document number. */
  function IndexedMarkup(createdBy: nat -> string): Renderer
  {
    (wp: WorkPackage, i: nat) => WorkPackageMarkup(wp, Some(i), createdBy(DocumentNumber(i)))
  }

  /** The markup documents of the work packages, each rendered with its position. */
  function Markups(wps: seq<WorkPackage>, render: Renderer): (ds: seq<Document>)
    ensures |ds| == |wps|
    decreases |wps|
  {
    if wps == [] then []
    else
      var n := |wps| - 1;
      Markups(wps[..n], render) + [render(wps[n], n)]
  }

  /** The i-th markup is the i-th work package rendered with index i. */
  lemma {:induction false} MarkupsAt(wps: seq<WorkPackage>, render: Renderer, i: nat)
    requires i < |wps|
    ensures Markups(wps, render)[i] == render(wps[i], i)
    decreases |wps|
  {
    if i < |wps| - 1 {
      MarkupsAt(wps[..|wps| - 1], render, i);
    }
  }

  /** The archive layout: the manifest, then the i-th markup in the directory of the i-th GUID. */
  function Layout(manifest: Document, gs: seq<string>, ds: seq<Document>): (es: seq<Entry>)
    requires |gs| == |ds|
    ensures |es| == |gs| + 1
    ensures es[0] == Entry(ManifestName, manifest)
    ensures forall i :: 0 <= i < |gs| ==> es[i + 1] == Entry(gs[i] + MarkupFile, ds[i])
    decreases |gs|
  {
    if gs == [] then [Entry(ManifestName, manifest)]
    else
      var n := |gs| - 1;
      Layout(manifest, gs[..n], ds[..n]) + [Entry(gs[n] + MarkupFile, ds[n])]
  }

  /** The exported entries: the manifest, then each work package's markup, in order. */
  function Entries(wps: seq<WorkPackage>, manifest: Document, render: Renderer): (es: seq<Entry>)
    ensures |es| == |wps| + 1
  {
    Layout(manifest, Guids(wps), Markups(wps, render))
  }

  /**
   * The outcome of create_bcf_file! in the temporary directory `tmp`, for
   * any manifest document and any markup renderer. The first work package
   * whose directory or markup cannot be created aborts the export; then
   * the archive cannot be created where a directory is; then an empty list
   * has no first work package to attach the archive to.
   */
  function Outcome(tmp: string, fileName: string, wps: seq<WorkPackage>, manifest: Document, render: Renderer)
    : Result<Package, ExportError>
  {
    var gs := Guids(wps);
    match ClashError(tmp, gs)
    case Some(e) => Failure(e)
    case None =>
      var name := BcfzipName(fileName);
      if name in gs then Failure(ZipTargetIsDirectory(tmp + "/" + name))
      else if |wps| == 0 then Failure(NoContainer)
      else Success(Package(tmp + "/" + name, Entries(wps, manifest, render)))
  }

  /**
   * The outcome of create_bcf_file! with the documents `manifest` and
   * `work_package` build: `createdBy(k)` is the generated comment of the
   * k-th document written (0 for the manifest).
   */
  function Export(tmp: string, fileName: string, wps: seq<WorkPackage>, createdBy: nat -> string)
    : Result<Package, ExportError>
  {
    Outcome(tmp, fileName, wps, Manifest(createdBy(0)), IndexedMarkup(createdBy))
  }

  // ---------------------------------------------------------------------
  // The temporary directory while create_bcf_file! runs
  // ---------------------------------------------------------------------

  /** The directories after the directories of the `earlier` GUIDs were made, one by one. */
  function DirSet(tmp: string, earlier: seq<string>): set<string>
    decreases |earlier|
  {
    if earlier == [] then InitialTree(tmp)
    else DirSet(tmp, earlier[..|earlier| - 1]) + {tmp + "/" + earlier[|earlier| - 1]}
  }

  /** The files after the manifest and the markups of the `earlier` GUIDs were written. */
  function FileSet(tmp: string, earlier: seq<string>): set<string>
    decreases |earlier|
  {
    if earlier == [] then {tmp + "/" + ManifestName}
    else FileSet(tmp, earlier[..|earlier| - 1]) + {tmp + "/" + (earlier[|earlier| - 1] + MarkupFile)}
  }

  /** The file contents after the entries `es` were written, in order, under `tmp`. */
  function Stored(tmp: string, es: seq<Entry>): map<string, Document>
    decreases |es|
  {
    if es == [] then map[]
    else Stored(tmp, es[..|es| - 1])[tmp + "/" + es[|es| - 1].name := es[|es| - 1].content]
  }

  /** `tmp/g` is a directory exactly when g is a name of a fresh directory or an earlier GUID. */
  lemma {:induction false} DirSetMember(tmp: string, earlier: seq<string>, g: string)
    ensures tmp + "/" + g in DirSet(tmp, earlier) <==> g in InitialDirs || g in earlier
    ensures tmp in DirSet(tmp, earlier)
    decreases |earlier|
  {
    if earlier == [] {
      InitialTreeMember(tmp, g);
    } else {
      var init, last := earlier[..|earlier| - 1], earlier[|earlier| - 1];
      DirSetMember(tmp, init, g);
      JoinInjective(tmp, g, last);
      assert earlier == init + [last];
    }
  }

  /** A name is the markup file name of one of a few GUIDs exactly when it is that of the last or of the others. */
  lemma MarkupOfLast(g: string, init: seq<string>, last: string)
    ensures IsMarkupOf(g, init + [last]) <==> IsMarkupOf(g, init) || g == last + MarkupFile
  {
    if g == last + MarkupFile {
      EndsWithAppended(last, MarkupFile);
      assert g[..|g| - |MarkupFile|] == last;
    }
    if EndsWith(g, MarkupFile) && g[..|g| - |MarkupFile|] == last {
      assert g == g[..|g| - |MarkupFile|] + g[|g| - |MarkupFile|..];
    }
  }

  /** `tmp/g` is a file exactly when g is the manifest or the markup file name of an earlier GUID. */
  lemma {:induction false} FileSetMember(tmp: string, earlier: seq<string>, g: string)
    ensures tmp + "/" + g in FileSet(tmp, earlier) <==> g == ManifestName || IsMarkupOf(g, earlier)
    decreases |earlier|
  {
    if earlier == [] {
      JoinInjective(tmp, g, ManifestName);
    } else {
      var init, last := earlier[..|earlier| - 1], earlier[|earlier| - 1];
      FileSetMember(tmp, init, g);
      JoinInjective(tmp, g, last + MarkupFile);
      assert earlier == init + [last];
      MarkupOfLast(g, init, last);
    }
  }

  /** The entry written last under a name is the one stored under its path. */
  lemma {:induction false} StoredAt(tmp: string, es: seq<Entry>, k: nat)
    requires k < |es|
    requires forall j :: k < j < |es| ==> es[j].name != es[k].name
    ensures tmp + "/" + es[k].name in Stored(tmp, es)
    ensures Stored(tmp, es)[tmp + "/" + es[k].name] == es[k].content
    decreases |es|
  {
    var n := |es| - 1;
    if k < n {
      StoredAt(tmp, es[..n], k);
      JoinInjective(tmp, es[n].name, es[k].name);
    }
  }

  /** Making the i-th GUID's directory fails exactly when MkdirFails says so; making it extends DirSet. */
  lemma StepMkdir(tmp: string, gs: seq<string>, i: nat)
    requires i < |gs|
    ensures var p := tmp + "/" + gs[i];
      (p in DirSet(tmp, gs[..i]) || p in FileSet(tmp, gs[..i])) <==> MkdirFails(gs[i], gs[..i])
    ensures DirSet(tmp, gs[..i + 1]) == DirSet(tmp, gs[..i]) + {tmp + "/" + gs[i]}
  {
    DirSetMember(tmp, gs[..i], gs[i]);
    FileSetMember(tmp, gs[..i], gs[i]);
    assert gs[..i + 1][..i] == gs[..i];
  }

  /** Writing the i-th GUID's markup, once its directory exists, fails exactly when WriteFails says so. */
  lemma StepWrite(tmp: string, gs: seq<string>, i: nat)
    requires i < |gs|
    ensures var p := tmp + "/" + (gs[i] + MarkupFile);
      p in DirSet(tmp, gs[..i + 1]) <==> WriteFails(gs[i], gs[..i])
    ensures FileSet(tmp, gs[..i + 1]) == FileSet(tmp, gs[..i]) + {tmp + "/" + (gs[i] + MarkupFile)}
  {
    DirSetMember(tmp, gs[..i + 1], gs[i] + MarkupFile);
    assert gs[..i + 1] == gs[..i] + [gs[i]];
    assert |gs[i] + MarkupFile| != |gs[i]|;
    assert gs[i] + MarkupFile !in InitialDirs by {
      assert |gs[i] + MarkupFile| > 2;
    }
  }

  /** The paths under `tmp` of a list of entries. */
  function Paths(tmp: string, es: seq<Entry>): (ps: seq<string>)
    ensures |ps| == |es|
    ensures forall k :: 0 <= k < |es| ==> ps[k] == tmp + "/" + es[k].name
  {
    seq(|es|, k requires 0 <= k < |es| => tmp + "/" + es[k].name)
  }

  /** Handling the i-th work package appends its markup entry to the layout. */
  lemma StepLayout(manifest: Document, gs: seq<string>, ds: seq<Document>, i: nat)
    requires |gs| == |ds| && i < |gs|
    ensures Layout(manifest, gs[..i + 1], ds[..i + 1])
      == Layout(manifest, gs[..i], ds[..i]) + [Entry(gs[i] + MarkupFile, ds[i])]
  {
    assert gs[..i + 1][..i] == gs[..i];
    assert ds[..i + 1][..i] == ds[..i];
  }

  /** Writing one more entry stores it under its path and adds its path to the list. */
  lemma StepEntry(tmp: string, es: seq<Entry>, e: Entry)
    ensures Stored(tmp, es + [e]) == Stored(tmp, es)[tmp + "/" + e.name := e.content]
    ensures Paths(tmp, es + [e]) == Paths(tmp, es) + [tmp + "/" + e.name]
  {
    assert (es + [e])[..|es|] == es;
  }

  /** The archive path is a directory exactly when the archive name is one of the GUIDs. */
  lemma ZipTarget(tmp: string, gs: seq<string>, name: string)
    requires EndsWith(name, ArchiveSuffix)
    ensures tmp + "/" + name in DirSet(tmp, gs) <==> name in gs
  {
    DirSetMember(tmp, gs, name);
  }

  /** Two markup names are equal only when their GUIDs are. */
  lemma MarkupNameInjective(g: string, h: string)
    ensures g + MarkupFile == h + MarkupFile <==> g == h
  {
    if g + MarkupFile == h + MarkupFile {
      assert (g + MarkupFile)[..|g|] == g;
      assert (h + MarkupFile)[..|h|] == h;
    }
  }

  /** Without a clash, the entry names of a layout are pairwise distinct. */
  lemma LayoutNamesDistinct(manifest: Document, gs: seq<string>, ds: seq<Document>, j: nat, k: nat)
    requires |gs| == |ds| && FirstClash(gs, 0).None?
    requires j < k < |gs| + 1
    ensures Layout(manifest, gs, ds)[j].name != Layout(manifest, gs, ds)[k].name
  {
    var es := Layout(manifest, gs, ds);
    assert es[k] == Entry(gs[k - 1] + MarkupFile, ds[k - 1]);
    assert !Clashes(gs, k - 1);
    if j == 0 {
      assert gs[k - 1] !in InitialDirs;
      assert |es[k].name| > |ManifestName|;
    } else {
      assert es[j] == Entry(gs[j - 1] + MarkupFile, ds[j - 1]);
      assert gs[j - 1] in gs[..k - 1];
      MarkupNameInjective(gs[j - 1], gs[k - 1]);
    }
  }

  /** The entry names of an export are pairwise distinct when no GUID clashes. */
  lemma EntryNamesDistinct(manifest: Document, gs: seq<string>, ds: seq<Document>)
    requires |gs| == |ds| && FirstClash(gs, 0).None?
    ensures var es := Layout(manifest, gs, ds);
      forall j, k :: 0 <= j < k < |es| ==> es[j].name != es[k].name
  {
    forall j: nat, k: nat | j < k < |gs| + 1
      ensures Layout(manifest, gs, ds)[j].name != Layout(manifest, gs, ds)[k].name
    {
      LayoutNamesDistinct(manifest, gs, ds, j, k);
    }
  }

  /** With distinct names, every entry is stored under its own path. */
  lemma StoredAll(tmp: string, es: seq<Entry>)
    requires forall j, k :: 0 <= j < k < |es| ==> es[j].name != es[k].name
    ensures forall k :: 0 <= k < |es| ==>
      tmp + "/" + es[k].name in Stored(tmp, es) && Stored(tmp, es)[tmp + "/" + es[k].name] == es[k].content
  {
    forall k | 0 <= k < |es|
      ensures tmp + "/" + es[k].name in Stored(tmp, es) && Stored(tmp, es)[tmp + "/" + es[k].name] == es[k].content
    {
      StoredAt(tmp, es, k);
    }
  }

  /** What handling the i-th GUID does: refuse its directory, refuse its markup, or neither. */
  function StepError(tmp: string, gs: seq<string>, i: nat): Option<ExportError>
    requires i < |gs|
  {
    if MkdirFails(gs[i], gs[..i]) then Some(PathExists(tmp + "/" + gs[i]))
    else if WriteFails(gs[i], gs[..i]) then Some(IsADirectory(tmp + "/" + gs[i] + MarkupFile))
    else None
  }

  /**
   * One turn of the `each_with_index` loop: `Dir.mkdir` of the work
   * package's GUID directory, then its markup written into it. After an
   * error nothing is promised about `fs`: the `ensure` clause of
   * create_bcf_file! removes the temporary directory whatever it holds.
   */
  method AddWorkPackage(fs: TempDir, tmp: string, wp: WorkPackage, doc: Document,
                        ghost manifest: Document, ghost gs: seq<string>, ghost ds: seq<Document>, ghost i: nat)
    returns (err: Option<ExportError>, file: string)
    requires |gs| == |ds| && i < |gs| && gs[i] == GuidText(GuidOf(wp)) && ds[i] == doc
    requires fs.root == tmp && fs.dirs == DirSet(tmp, gs[..i]) && fs.files.Keys == FileSet(tmp, gs[..i])
    requires fs.files == Stored(tmp, Layout(manifest, gs[..i], ds[..i]))
    modifies fs
    ensures err == StepError(tmp, gs, i)
    ensures fs.root == tmp
    ensures err.None? ==> file == tmp + "/" + (gs[i] + MarkupFile)
    ensures err.None? ==> fs.dirs == DirSet(tmp, gs[..i + 1]) && fs.files.Keys == FileSet(tmp, gs[..i + 1])
    ensures err.None? ==> fs.files == Stored(tmp, Layout(manifest, gs[..i + 1], ds[..i + 1]))
  {
    var guid := WorkPackageGuid(wp);
    var path := tmp + "/" + GuidText(guid);
    StepMkdir(tmp, gs, i);
    var ok := fs.Mkdir(path);
    if !ok {
      return Some(PathExists(path)), path;
    }
    file := path + MarkupFile;
    assert file == tmp + "/" + (gs[i] + MarkupFile);
    StepWrite(tmp, gs, i);
    var written := fs.Write(file, doc);
    if !written {
      return Some(IsADirectory(file)), file;
    }
    StepLayout(manifest, gs, ds, i);
    StepEntry(tmp, Layout(manifest, gs[..i], ds[..i]), Entry(gs[i] + MarkupFile, ds[i]));
    return None, file;
  }

  /** A clash-free prefix followed by the i-th GUID: its step error is the export's clash error. */
  lemma ClashErrorAt(tmp: string, gs: seq<string>, i: nat)
    requires i < |gs| && FirstClash(gs, 0) == FirstClash(gs, i)
    ensures StepError(tmp, gs, i).Some? ==> ClashError(tmp, gs) == StepError(tmp, gs, i)
    ensures StepError(tmp, gs, i).None? ==> FirstClash(gs, 0) == FirstClash(gs, i + 1)
  {
  }

  /**
   * The `work_packages.each_with_index` loop of create_bcf_file!: a directory
   * and a markup file per work package, after the manifest; the first
   * `Dir.mkdir` or `File.open` that fails ends the export. After an error
   * nothing is promised about `fs`: the `ensure` clause removes the
   * temporary directory whatever it holds.
   */
  method WriteMarkups(fs: TempDir, tmp: string, wps: seq<WorkPackage>, render: Renderer,
                      manifestFile: string, ghost manifest: Document)
    returns (err: Option<ExportError>, files: seq<string>)
    requires manifestFile == tmp + "/" + ManifestName
    requires fs.root == tmp && fs.dirs == InitialTree(tmp)
    requires fs.files == Stored(tmp, Layout(manifest, [], []))
    modifies fs
    ensures err == ClashError(tmp, Guids(wps))
    ensures err.None? ==> fs.dirs == DirSet(tmp, Guids(wps))
    ensures err.None? ==> fs.files == Stored(tmp, Layout(manifest, Guids(wps), Markups(wps, render)))
    ensures err.None? ==> files == Paths(tmp, Layout(manifest, Guids(wps), Markups(wps, render)))
  {
    ghost var gs := Guids(wps);
    ghost var ds := Markups(wps, render);
    files := [manifestFile];
    assert files == Paths(tmp, Layout(manifest, gs[..0], ds[..0]));
    var i := 0;
    while i < |wps|
      invariant 0 <= i <= |wps|
      invariant fs.root == tmp
      invariant FirstClash(gs, 0) == FirstClash(gs, i)
      invariant fs.dirs == DirSet(tmp, gs[..i]) && fs.files.Keys == FileSet(tmp, gs[..i])
      invariant fs.files == Stored(tmp, Layout(manifest, gs[..i], ds[..i]))
      invariant files == Paths(tmp, Layout(manifest, gs[..i], ds[..i]))
    {
      GuidsAt(wps, i);
      MarkupsAt(wps, render, i);
      var file;
      err, file := AddWorkPackage(fs, tmp, wps[i], render(wps[i], i), manifest, gs, ds, i);
      ClashErrorAt(tmp, gs, i);
      if err.Some? {
        return err, files;
      }
      StepLayout(manifest, gs, ds, i);
      StepEntry(tmp, Layout(manifest, gs[..i], ds[..i]), Entry(gs[i] + MarkupFile, ds[i]));
      files := files + [file];
      i := i + 1;
    }
    assert gs[..|wps|] == gs;
    assert ds[..|wps|] == ds;
    return None, files;
  }

  /** The `files.each` loop that adds every file to the archive under its name relative to `tmp`. */
  method ZipEntries(fs: TempDir, tmp: string, files: seq<string>, ghost es: seq<Entry>) returns (entries: seq<Entry>)
    requires |files| == |es|
    requires forall k :: 0 <= k < |es| ==> files[k] == tmp + "/" + es[k].name
    requires forall k :: 0 <= k < |es| ==> files[k] in fs.files && fs.files[files[k]] == es[k].content
    ensures entries == es
  {
    entries := [];
    for k := 0 to |files|
      invariant entries == es[..k]
    {
      var name := ReplaceFirst(files[k], tmp + "/", "");
      ReplaceFirstOfPrefix(tmp + "/", es[k].name);
      entries := entries + [Entry(name, fs.files[files[k]])];
    }
  }

  /**
   * `Zip::File.open` on `tmp/<name>.bcfzip` and the `files.each` loop: the
   * archive cannot be created where a directory is; otherwise it holds every
   * written file under its name relative to `tmp`.
   */
  method ZipFiles(fs: TempDir, tmp: string, fileName: string, files: seq<string>,
                  ghost gs: seq<string>, ghost es: seq<Entry>)
    returns (r: Result<Package, ExportError>)
    requires fs.dirs == DirSet(tmp, gs)
    requires forall j, k :: 0 <= j < k < |es| ==> es[j].name != es[k].name
    requires fs.files == Stored(tmp, es) && files == Paths(tmp, es)
    ensures var name := BcfzipName(fileName);
      r == if name in gs then Failure(ZipTargetIsDirectory(tmp + "/" + name))
           else Success(Package(tmp + "/" + name, es))
  {
    var name := BcfzipName(fileName);
    var zipFile := tmp + "/" + name;
    ZipTarget(tmp, gs, name);
    if zipFile in fs.dirs {
      return Failure(ZipTargetIsDirectory(zipFile));
    }
    StoredAll(tmp, es);
    var entries := ZipEntries(fs, tmp, files, es);
    return Success(Package(zipFile, entries));
  }

  /** `create_bcf_file!`, step by step, up to the archive it attaches, for any documents. */
  method BuildPackage(tmp: string, fileName: string, wps: seq<WorkPackage>, manifest: Document, render: Renderer)
    returns (r: Result<Package, ExportError>)
    ensures r == Outcome(tmp, fileName, wps, manifest, render)
  {
    ghost var gs, ds := Guids(wps), Markups(wps, render);
    var fs := new TempDir(tmp);
    var manifestFile := tmp + "/" + ManifestName;
    InitialTreeMember(tmp, ManifestName);
    assert manifestFile !in fs.dirs;
    var written := fs.Write(manifestFile, manifest);
    assert fs.files == map[manifestFile := manifest];
    StoredManifest(tmp, manifest);
    var err, files := WriteMarkups(fs, tmp, wps, render, manifestFile, manifest);
    if err.Some? {
      return Failure(err.value);
    }
    EntryNamesDistinct(manifest, gs, ds);
    r := ZipFiles(fs, tmp, fileName, files, gs, Layout(manifest, gs, ds));
    if r.Failure? {
      return r;
    }
    if |wps| == 0 {
      return Failure(NoContainer);
    }
  }

  /** `create_bcf_file!`: the manifest and the indexed markups, packaged. */
  method CreateBcfFile(tmp: string, fileName: string, wps: seq<WorkPackage>, createdBy: nat -> string)
    returns (r: Result<Package, ExportError>)
    ensures r == Export(tmp, fileName, wps, createdBy)
  {
    r := BuildPackage(tmp, fileName, wps, Manifest(createdBy(0)), IndexedMarkup(createdBy));
  }

  lemma StoredManifest(tmp: string, manifest: Document)
    ensures Stored(tmp, Layout(manifest, [], [])) == map[tmp + "/" + ManifestName := manifest]
  {
    var es := Layout(manifest, [], []);
    assert es[..0] == [];
  }

  // ---------------------------------------------------------------------
  // Properties of the package
  // ---------------------------------------------------------------------

  /** An entry name that is not the archive's: neither the manifest nor a markup file ends with `.bcfzip`. */
  lemma NotArchiveName(g: string, name: string)
    requires EndsWith(name, ArchiveSuffix)
    ensures ManifestName != name && g + MarkupFile != name
  {
    assert name[|name| - 1] == 'p';
    assert (g + MarkupFile)[|g + MarkupFile| - 1] == 'f';
  }

  /**
   * A successful export is the archive `<name>.bcfzip` in the temporary
   * directory holding exactly `bcf.version` and then `<guid_i>/markup.bcf`
   * for each work package in input order, the markup rendered with its
   * 0-based index, and no entry named like the archive itself.
   */
  lemma PackageLayout(tmp: string, fileName: string, wps: seq<WorkPackage>, manifest: Document, render: Renderer)
    requires Outcome(tmp, fileName, wps, manifest, render).Success?
    ensures var p := Outcome(tmp, fileName, wps, manifest, render).value;
      && |wps| > 0
      && p.zipPath == tmp + "/" + BcfzipName(fileName) && EndsWith(p.zipPath, ".bcfzip")
      && |p.entries| == |wps| + 1
      && p.entries[0] == Entry("bcf.version", manifest)
      && (forall i :: 0 <= i < |wps| ==>
            p.entries[i + 1] == Entry(GuidText(GuidOf(wps[i])) + "/markup.bcf", render(wps[i], i)))
      && (forall k :: 0 <= k < |p.entries| ==> p.entries[k].name != BcfzipName(fileName))
  {
    var p := Outcome(tmp, fileName, wps, manifest, render).value;
    var name := BcfzipName(fileName);
    EndsWithTail(tmp + "/", name, ".bcfzip");
    forall i | 0 <= i < |wps|
      ensures p.entries[i + 1] == Entry(GuidText(GuidOf(wps[i])) + "/markup.bcf", render(wps[i], i))
    {
      GuidsAt(wps, i);
      MarkupsAt(wps, render, i);
    }
    forall k | 0 <= k < |p.entries|
      ensures p.entries[k].name != name
    {
      if k == 0 {
        NotArchiveName("", name);
      } else {
        NotArchiveName(Guids(wps)[k - 1], name);
      }
    }
  }

  /** A string that ends with a suffix still does after something is put in front of it. */
  lemma EndsWithTail(prefix: string, s: string, suffix: string)
    requires EndsWith(s, suffix)
    ensures EndsWith(prefix + s, suffix)
  {
    assert (prefix + s)[|prefix + s| - |suffix|..] == s[|s| - |suffix|..];
  }

  /**
   * Each markup of a successful export reads back as its work package's
   * Topic, whose Index is present and equal to the package's position (0
   * included), followed by one comment per journal with notes.
   */
  lemma ExportTopicIndex(tmp: string, fileName: string, wps: seq<WorkPackage>, createdBy: nat -> string, i: nat)
    requires Export(tmp, fileName, wps, createdBy).Success? && i < |wps|
    ensures var p := Export(tmp, fileName, wps, createdBy).value;
      && i + 1 < |p.entries|
      && ReadMarkup(p.entries[i + 1].content)
           == Some(MarkupInfo(TopicInfoOf(wps[i], Some(i)), CommentInfos(WithNotes(wps[i].journals), wps[i])))
      && ReadMarkup(p.entries[i + 1].content).value.topic.index == Some(i)
  {
    var render := IndexedMarkup(createdBy);
    PackageEntry(tmp, fileName, wps, Manifest(createdBy(0)), render, i);
    var d := Export(tmp, fileName, wps, createdBy).value.entries[i + 1].content;
    assert d == render(wps[i], i);
    assert d == WorkPackageMarkup(wps[i], Some(i), createdBy(DocumentNumber(i)));
    MarkupRoundTrip(wps[i], Some(i), createdBy(DocumentNumber(i)));
  }

  /** The entry of the i-th work package in a successful export. */
  lemma PackageEntry(tmp: string, fileName: string, wps: seq<WorkPackage>, manifest: Document, render: Renderer, i: nat)
    requires Outcome(tmp, fileName, wps, manifest, render).Success? && i < |wps|
    ensures var p := Outcome(tmp, fileName, wps, manifest, render).value;
      i + 1 < |p.entries| && p.entries[i + 1].content == render(wps[i], i)
  {
    MarkupsAt(wps, render, i);
  }

  /** The first entry of a successful export is the manifest declaring BCF version 2.1. */
  lemma ExportManifest(tmp: string, fileName: string, wps: seq<WorkPackage>, createdBy: nat -> string)
    requires Export(tmp, fileName, wps, createdBy).Success?
    ensures var p := Export(tmp, fileName, wps, createdBy).value;
      |p.entries| > 0 && p.entries[0].name == "bcf.version"
      && ReadManifest(p.entries[0].content) == Some(("2.1", "2.1"))
  {
    PackageLayout(tmp, fileName, wps, Manifest(createdBy(0)), IndexedMarkup(createdBy));
    ManifestDeclaresVersion(createdBy(0));
  }

  /** The i-th GUID is not among the earlier ones unless the i-th work package clashes. */
  lemma ClashFreeDistinct(gs: seq<string>, j: nat, k: nat)
    requires j < k < |gs| && !Clashes(gs, k)
    ensures gs[j] != gs[k]
  {
    assert gs[j] in gs[..k];
  }

  /**
   * `Dir.mkdir` refuses an existing directory, so a successful export has
   * pairwise distinct GUIDs.
   */
  lemma DistinctGuids(tmp: string, fileName: string, wps: seq<WorkPackage>, manifest: Document, render: Renderer)
    requires Outcome(tmp, fileName, wps, manifest, render).Success?
    ensures forall j, k :: 0 <= j < k < |wps| ==> GuidText(GuidOf(wps[j])) != GuidText(GuidOf(wps[k]))
  {
    var gs := Guids(wps);
    assert FirstClash(gs, 0).None?;
    forall j, k | 0 <= j < k < |wps|
      ensures GuidText(GuidOf(wps[j])) != GuidText(GuidOf(wps[k]))
    {
      GuidsAt(wps, j);
      GuidsAt(wps, k);
      ClashFreeDistinct(gs, j, k);
    }
  }

  /** Two work packages with the same GUID make the export fail in `Dir.mkdir` or `File.open`. */
  lemma SharedGuidFails(tmp: string, fileName: string, wps: seq<WorkPackage>, manifest: Document, render: Renderer,
                        j: nat, k: nat)
    requires j < k < |wps| && GuidText(GuidOf(wps[j])) == GuidText(GuidOf(wps[k]))
    ensures var r := Outcome(tmp, fileName, wps, manifest, render);
      r.Failure? && (r.error.PathExists? || r.error.IsADirectory?)
  {
    var gs := Guids(wps);
    GuidsAt(wps, j);
    GuidsAt(wps, k);
    if FirstClash(gs, 0).None? {
      ClashFreeDistinct(gs, j, k);
    }
  }

  /** An empty list of work packages fails: there is no first work package to attach the archive to. */
  lemma EmptyInputFails(tmp: string, fileName: string, manifest: Document, render: Renderer)
    ensures Outcome(tmp, fileName, [], manifest, render) == Failure(NoContainer)
  {
    assert FirstClash(Guids([]), 0).None?;
  }

  /** A GUID that names no path below another: no slash in it. */
  predicate Flat(g: string)
  {
    forall i :: 0 <= i < |g| ==> g[i] != '/'
  }

  /** A flat GUID is not a markup file name, and no markup file name is flat. */
  lemma FlatIsNotMarkup(g: string, h: string)
    requires Flat(g)
    ensures !EndsWith(g, MarkupFile) && !Flat(h + MarkupFile)
  {
    if |MarkupFile| <= |g| {
      assert g[|g| - |MarkupFile|..][0] == g[|g| - |MarkupFile|] != '/';
    }
    assert (h + MarkupFile)[|h|] == '/';
  }

  /** A flat, distinct GUID that is not a name of the fresh directory does not clash. */
  lemma FlatNoClash(gs: seq<string>, i: nat)
    requires i < |gs| && (forall k :: 0 <= k < |gs| ==> Flat(gs[k]))
    requires forall j, k :: 0 <= j < k < |gs| ==> gs[j] != gs[k]
    requires gs[i] !in {"", ".", "..", "bcf.version"}
    ensures !Clashes(gs, i)
  {
    var g := gs[i];
    FlatIsNotMarkup(g, g);
    assert g !in gs[..i] by {
      forall j | 0 <= j < i ensures gs[..i][j] != g {
        assert gs[..i][j] == gs[j];
      }
    }
    assert g + MarkupFile !in gs[..i] by {
      forall j | 0 <= j < i ensures gs[..i][j] != g + MarkupFile {
        assert Flat(gs[j]);
      }
    }
  }

  /**
   * Flat GUIDs are created without a clash exactly when they are pairwise
   * distinct and none is a name the fresh temporary directory already holds.
   */
  lemma FlatClashFreeIff(gs: seq<string>)
    requires forall k :: 0 <= k < |gs| ==> Flat(gs[k])
    ensures FirstClash(gs, 0).None? <==>
      && (forall j, k :: 0 <= j < k < |gs| ==> gs[j] != gs[k])
      && (forall i :: 0 <= i < |gs| ==> gs[i] !in {"", ".", "..", "bcf.version"})
  {
    var distinct := forall j, k :: 0 <= j < k < |gs| ==> gs[j] != gs[k];
    var proper := forall i :: 0 <= i < |gs| ==> gs[i] !in {"", ".", "..", "bcf.version"};
    if distinct && proper {
      forall i | 0 <= i < |gs| ensures !Clashes(gs, i) {
        FlatNoClash(gs, i);
      }
    }
    if FirstClash(gs, 0).None? {
      forall j, k | 0 <= j < k < |gs| ensures gs[j] != gs[k] {
        ClashFreeDistinct(gs, j, k);
      }
      forall i | 0 <= i < |gs| ensures gs[i] !in {"", ".", "..", "bcf.version"} {
        assert !Clashes(gs, i);
      }
    }
  }

  /**
   * For GUIDs without a slash, an export succeeds exactly when the list is
   * non-empty, the GUIDs are pairwise distinct, none of them is a name the
   * fresh temporary directory already holds ("", ".", ".." or the manifest
   * "bcf.version"), and the archive name is not one of them. The archive
   * name has no slash either, so it names no path in a missing directory.
   */
  lemma SucceedsIff(tmp: string, fileName: string, wps: seq<WorkPackage>, manifest: Document, render: Renderer)
    requires forall i :: 0 <= i < |wps| ==> Flat(GuidText(GuidOf(wps[i])))
    requires Flat(BcfzipName(fileName))
    ensures Outcome(tmp, fileName, wps, manifest, render).Success? <==>
      && |wps| > 0
      && (forall j, k :: 0 <= j < k < |wps| ==> GuidText(GuidOf(wps[j])) != GuidText(GuidOf(wps[k])))
      && (forall i :: 0 <= i < |wps| ==> GuidText(GuidOf(wps[i])) !in {"", ".", "..", "bcf.version"})
      && (forall i :: 0 <= i < |wps| ==> GuidText(GuidOf(wps[i])) != BcfzipName(fileName))
  {
    GuidTexts(wps);
    OutcomeSucceeds(tmp, fileName, wps, manifest, render);
    FlatSucceedsOnGuids(Guids(wps), BcfzipName(fileName));
  }

  /** Every GUID text of the work packages, in order. */
  lemma GuidTexts(wps: seq<WorkPackage>)
    ensures |Guids(wps)| == |wps|
    ensures forall i :: 0 <= i < |wps| ==> Guids(wps)[i] == GuidText(GuidOf(wps[i]))
  {
    forall i | 0 <= i < |wps| ensures Guids(wps)[i] == GuidText(GuidOf(wps[i])) {
      GuidsAt(wps, i);
    }
  }

  /** `SucceedsIff` on the GUID texts: no clash and no GUID named like the archive. */
  lemma FlatSucceedsOnGuids(gs: seq<string>, name: string)
    requires forall k :: 0 <= k < |gs| ==> Flat(gs[k])
    ensures FirstClash(gs, 0).None? && name !in gs <==>
      && (forall j, k :: 0 <= j < k < |gs| ==> gs[j] != gs[k])
      && (forall i :: 0 <= i < |gs| ==> gs[i] !in {"", ".", "..", "bcf.version"})
      && (forall i :: 0 <= i < |gs| ==> gs[i] != name)
  {
    FlatClashFreeIff(gs);
    assert name in gs <==> exists i :: 0 <= i < |gs| && gs[i] == name;
  }

  /** An export succeeds exactly when nothing clashes, the archive is no GUID directory and the list is non-empty. */
  lemma OutcomeSucceeds(tmp: string, fileName: string, wps: seq<WorkPackage>, manifest: Document, render: Renderer)
    ensures Outcome(tmp, fileName, wps, manifest, render).Success? <==>
      FirstClash(Guids(wps), 0).None? && BcfzipName(fileName) !in Guids(wps) && |wps| > 0
  {
  }
}
