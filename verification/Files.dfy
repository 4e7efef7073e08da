/**
 Who owns the files of a template.  Storage is a map from key to bytes; templates and
 envelopes are rows in a database that can roll back, while storage cannot.
 */
module Files {
  import opened Basics
  import Transactions

  type Content = Transactions.Content

  /** What follows the last dot of an uploaded file's name, lower-cased. */
  type Extension = s: string | '.' !in s witness ""

  datatype Upload = Upload(ext: Extension, data: Content, pdf: Content, pageCount: nat)

  /** `lastFieldPage` is -1 without fields. */
  datatype Template = Template(originalKey: string, pdfKey: string, isAdhoc: bool, archived: bool, pageCount: nat,
                               lastFieldPage: int)

  datatype Stage = Draft | Pending | Closed

  datatype Envelope = Envelope(template: nat, stage: Stage, signed: bool)

  /** Row ids come from sequences, which a rollback does not turn back. */
  datatype Store = Store(files: map<string, Content>, templates: map<nat, Template>, envelopes: map<nat, Envelope>,
                         nextTemplate: nat, nextEnvelope: nat)

  /** Broken: the commit failed after storage had been changed. */
  datatype Reply = Done | Refused | Broken

  // ---- keys -------------------------------------------------------------------

  function Digit(d: nat): char
    requires d < 10
  {
    ('0' as int + d) as char
  }

  function Decimal(n: nat): string {
    if n < 10 then [Digit(n)] else Decimal(n / 10) + [Digit(n % 10)]
  }

  const FOLDER := "templates/"

  function Key(id: nat, name: string): string { FOLDER + Decimal(id) + "/" + name }

  function PdfKey(id: nat): string { Key(id, "document.pdf") }

  function OriginalKey(id: nat, ext: Extension): string {
    Key(id, if ext == "" then "original" else "original." + ext)
  }

  /** `rsplit('/', 1)[-1]`. */
  function BaseName(key: string): string {
    if '/' in key then BaseName(key[1..]) else key
  }

  function Number(s: string): int {
    if s == "" then 0 else 10 * Number(s[..|s| - 1]) + (s[|s| - 1] as int - '0' as int)
  }

  lemma {:induction false} DecimalReads(n: nat)
    ensures Number(Decimal(n)) == n && '/' !in Decimal(n)
  {
    if n < 10 {
      assert Decimal(n)[..0] == "" && Number("") == 0;
    } else {
      DecimalReads(n / 10);
      assert Decimal(n)[..|Decimal(n)| - 1] == Decimal(n / 10);
    }
  }

  /** A key tells its template and its file name. */
  lemma KeysAreDistinct(a: nat, b: nat, x: string, y: string)
    ensures Key(a, x) == Key(b, y) <==> a == b && x == y
  {
    DecimalReads(a);
    DecimalReads(b);
    if Key(a, x) == Key(b, y) {
      var (p, q) := (Decimal(a), Decimal(b));
      assert Key(a, x)[|FOLDER|..] == p + "/" + x && Key(b, y)[|FOLDER|..] == q + "/" + y;
      SlashEnds(p, x);
      SlashEnds(q, y);
      assert x == (p + "/" + x)[|p| + 1..] && y == (q + "/" + y)[|q| + 1..];
    }
  }

  function BeforeSlash(s: string): string {
    if s == "" || s[0] == '/' then "" else [s[0]] + BeforeSlash(s[1..])
  }

  lemma {:induction false} SlashEnds(p: string, x: string)
    requires '/' !in p
    ensures BeforeSlash(p + "/" + x) == p
  {
    if p != "" {
      SlashEnds(p[1..], x);
      assert (p + "/" + x)[1..] == p[1..] + "/" + x;
    }
  }

  lemma {:induction false} BaseNameSkips(front: string, name: string)
    ensures BaseName(front + "/" + name) == BaseName(name)
    decreases |front|
  {
    var key := front + "/" + name;
    assert key[|front|] == '/';
    if front == "" {
      assert key[1..] == name;
    } else {
      assert key[1..] == front[1..] + "/" + name;
      BaseNameSkips(front[1..], name);
    }
  }

  lemma {:induction false} BaseNameIsBase(name: string)
    ensures '/' !in BaseName(name)
    ensures name != "document.pdf" && '/' !in name ==> BaseName(name) != "document.pdf"
  {
    if '/' in name {
      BaseNameIsBase(name[1..]);
    }
  }

  /** `max(..., default=-1)` over the pages of the fields. */
  function LastPage(pages: seq<nat>): int {
    if pages == [] then -1
    else
      var last, rest := pages[|pages| - 1], LastPage(pages[..|pages| - 1]);
      if last > rest then last else rest
  }

  lemma {:induction false} LastPageIsLast(pages: seq<nat>)
    ensures LastPage(pages) == -1 || exists k :: 0 <= k < |pages| && pages[k] == LastPage(pages)
    ensures forall k :: 0 <= k < |pages| ==> pages[k] <= LastPage(pages)
  {
    if pages != [] {
      var n := |pages| - 1;
      LastPageIsLast(pages[..n]);
      assert forall k :: 0 <= k < n ==> pages[..n][k] == pages[k];
    }
  }

  // ---- the operations ---------------------------------------------------------

  datatype Op =
    | CreateTemplate(upload: Upload)
    | CreateAdhoc(upload: Upload, lastFieldPage: int, draft: bool, accepted: bool)
    | CreateEnvelope(template: nat, draft: bool, accepted: bool)
    | CopyTemplate(template: nat)
    | CopyEnvelope(envelope: nat, accepted: bool)
    | SaveAsTemplate(envelope: nat)
    | ReplaceDocument(envelope: nat, upload: Upload)
    | DeleteDraft(envelope: nat)
    | EditFields(template: nat, lastFieldPage: int)
    | ArchiveTemplate(template: nat)
    | Advance(envelope: nat, stage: Stage, signed: bool)

  function SaveUpload(files: map<string, Content>, id: nat, u: Upload): map<string, Content> {
    files[OriginalKey(id, u.ext) := u.data][PdfKey(id) := u.pdf]
  }

  function Uploaded(id: nat, u: Upload, isAdhoc: bool, archived: bool, lastFieldPage: int): Template {
    Template(OriginalKey(id, u.ext), PdfKey(id), isAdhoc, archived, u.pageCount, lastFieldPage)
  }

  /** Copy one file into the clone's folder; an empty or missing source leaves the clone's key empty. */
  function CopyFile(files: map<string, Content>, id: nat, source: string): (map<string, Content>, string) {
    if source != "" && source in files
    then (files[Key(id, BaseName(source)) := files[source]], Key(id, BaseName(source)))
    else (files, "")
  }

  function Clone(s: Store, source: Template, isAdhoc: bool): Option<Store> {
    if source.pdfKey !in s.files then None
    else
      var id := s.nextTemplate;
      var (files, original) := CopyFile(s.files, id, source.originalKey);
      var (all, pdf) := CopyFile(files, id, source.pdfKey);
      Some(s.(files := all, nextTemplate := id + 1,
              templates := s.templates[id := source.(originalKey := original, pdfKey := pdf, isAdhoc := isAdhoc,
                                                     archived := false)]))
  }

  /** A reusable template made from another row. */
  function DoClone(s: Store, source: Template): (Store, Reply) {
    match Clone(s, source, false)
    case None => (s, Refused)
    case Some(made) => (made, Done)
  }

  function AddEnvelope(s: Store, template: nat, draft: bool): Store {
    s.(nextEnvelope := s.nextEnvelope + 1,
       envelopes := s.envelopes[s.nextEnvelope := Envelope(template, if draft then Draft else Pending, false)])
  }

  /** Rows as before, storage and sequences as they have become. */
  function RolledBack(before: Store, after: Store): Store {
    after.(templates := before.templates, envelopes := before.envelopes)
  }

  function DoCreateAdhoc(s: Store, u: Upload, lastFieldPage: int, draft: bool, accepted: bool): (Store, Reply) {
    var id := s.nextTemplate;
    if lastFieldPage >= u.pageCount then (s.(nextTemplate := id + 1), Refused)
    else
      var made := s.(files := SaveUpload(s.files, id, u), nextTemplate := id + 1,
                     templates := s.templates[id := Uploaded(id, u, true, false, lastFieldPage)]);
      if accepted then (AddEnvelope(made, id, draft), Done) else (RolledBack(s, made), Refused)
  }

  function DoCopyEnvelope(s: Store, e: nat, accepted: bool): (Store, Reply) {
    if e !in s.envelopes || s.envelopes[e].template !in s.templates then (s, Refused)
    else
      match Clone(s, s.templates[s.envelopes[e].template], true)
      case None => (s, Refused)
      case Some(made) =>
        if accepted then (AddEnvelope(made, s.nextTemplate, true), Done) else (RolledBack(s, made), Refused)
  }

  function DoReplaceDocument(s: Store, e: nat, u: Upload): (Store, Reply) {
    if e !in s.envelopes || s.envelopes[e].template !in s.templates then (s, Refused)
    else
      var (envelope, t) := (s.envelopes[e], s.templates[s.envelopes[e].template]);
      if envelope.stage.Closed? || envelope.signed || t.lastFieldPage >= u.pageCount then (s, Refused)
      else if t.isAdhoc then
        var id := envelope.template;
        (s.(files := SaveUpload(s.files, id, u),
            templates := s.templates[id := Uploaded(id, u, true, t.archived, t.lastFieldPage)]),
         Done)
      else
        var id := s.nextTemplate;
        (s.(files := SaveUpload(s.files, id, u), nextTemplate := id + 1,
            templates := s.templates[id := Uploaded(id, u, true, true, t.lastFieldPage)],
            envelopes := s.envelopes[e := envelope.(template := id)]),
         Done)
  }

  predicate InUse(envelopes: map<nat, Envelope>, template: nat) {
    exists e :: e in envelopes && envelopes[e].template == template
  }

  /** The files go first; the foreign key then refuses to drop a template that another envelope uses. */
  function DoDeleteDraft(s: Store, e: nat): (Store, Reply) {
    if e !in s.envelopes || !s.envelopes[e].stage.Draft? then (s, Refused)
    else
      var (id, left) := (s.envelopes[e].template, s.envelopes - {e});
      if id !in s.templates || !s.templates[id].isAdhoc then (s.(envelopes := left), Done)
      else
        var files := s.files - {s.templates[id].originalKey, s.templates[id].pdfKey};
        if InUse(left, id) then (s.(files := files), Broken)
        else (s.(files := files, envelopes := left, templates := s.templates - {id}), Done)
  }

  function DoCreateTemplate(s: Store, u: Upload): Store {
    var id := s.nextTemplate;
    s.(files := SaveUpload(s.files, id, u), nextTemplate := id + 1,
       templates := s.templates[id := Uploaded(id, u, false, false, -1)])
  }

  /** Any template that is not archived will do, an ad-hoc one included. */
  function DoCreateEnvelope(s: Store, t: nat, draft: bool, accepted: bool): (Store, Reply) {
    if t !in s.templates || s.templates[t].archived || !accepted then (s, Refused) else (AddEnvelope(s, t, draft), Done)
  }

  function DoCopyTemplate(s: Store, t: nat): (Store, Reply) {
    if t !in s.templates || s.templates[t].archived then (s, Refused) else DoClone(s, s.templates[t])
  }

  function DoSaveAsTemplate(s: Store, e: nat): (Store, Reply) {
    if e !in s.envelopes || s.envelopes[e].template !in s.templates then (s, Refused)
    else DoClone(s, s.templates[s.envelopes[e].template])
  }

  function DoEditFields(s: Store, t: nat, lastFieldPage: int): (Store, Reply) {
    if t !in s.templates || lastFieldPage >= s.templates[t].pageCount then (s, Refused)
    else (s.(templates := s.templates[t := s.templates[t].(lastFieldPage := lastFieldPage)]), Done)
  }

  function DoArchiveTemplate(s: Store, t: nat): (Store, Reply) {
    if t !in s.templates then (s, Refused)
    else (s.(templates := s.templates[t := s.templates[t].(archived := true)]), Done)
  }

  function DoAdvance(s: Store, e: nat, stage: Stage, signed: bool): (Store, Reply) {
    if e !in s.envelopes || s.envelopes[e].stage.Closed? || stage.Draft? then (s, Refused)
    else (s.(envelopes := s.envelopes[e := s.envelopes[e].(stage := stage, signed := signed)]), Done)
  }

  function Step(s: Store, op: Op): (Store, Reply) {
    match op
    case CreateTemplate(u) => (DoCreateTemplate(s, u), Done)
    case CreateAdhoc(u, lastFieldPage, draft, accepted) => DoCreateAdhoc(s, u, lastFieldPage, draft, accepted)
    case CreateEnvelope(t, draft, accepted) => DoCreateEnvelope(s, t, draft, accepted)
    case CopyTemplate(t) => DoCopyTemplate(s, t)
    case CopyEnvelope(e, accepted) => DoCopyEnvelope(s, e, accepted)
    case SaveAsTemplate(e) => DoSaveAsTemplate(s, e)
    case ReplaceDocument(e, u) => DoReplaceDocument(s, e, u)
    case DeleteDraft(e) => DoDeleteDraft(s, e)
    case EditFields(t, lastFieldPage) => DoEditFields(s, t, lastFieldPage)
    case ArchiveTemplate(t) => DoArchiveTemplate(s, t)
    case Advance(e, stage, signed) => DoAdvance(s, e, stage, signed)
  }

  // ---- the routes -------------------------------------------------------------

  class Library {
    var files: map<string, Content>
    var templates: map<nat, Template>
    var envelopes: map<nat, Envelope>
    var nextTemplate: nat
    var nextEnvelope: nat

    function View(): Store
      reads this
    {
      Store(files, templates, envelopes, nextTemplate, nextEnvelope)
    }

    /** `db.add` and `db.flush`: the row exists and its id is taken. */
    method Flush(t: Template) returns (id: nat)
      modifies this`templates, this`nextTemplate
      ensures id == old(nextTemplate) && nextTemplate == id + 1 && templates == old(templates)[id := t]
    {
      id := nextTemplate;
      templates := templates[id := t];
      nextTemplate := nextTemplate + 1;
    }

    method StoreUpload(id: nat, u: Upload)
      requires id in templates
      modifies this`files, this`templates
      ensures files == SaveUpload(old(files), id, u)
      ensures templates == old(templates)[id := old(templates)[id].(originalKey := OriginalKey(id, u.ext),
                                                                    pdfKey := PdfKey(id), pageCount := u.pageCount)]
    {
      var (original, pdf) := (OriginalKey(id, u.ext), PdfKey(id));
      files := files[original := u.data];
      files := files[pdf := u.pdf];
      templates := templates[id := templates[id].(originalKey := original, pdfKey := pdf, pageCount := u.pageCount)];
    }

    method CreateTemplate(u: Upload)
      modifies this
      ensures View() == Step(old(View()), Op.CreateTemplate(u)).0
      ensures Safely(old(View()), View(), Op.CreateTemplate(u))
      ensures templates == old(templates)[old(nextTemplate) := templates[old(nextTemplate)]]
      ensures Stored(View(), old(nextTemplate), u) && !templates[old(nextTemplate)].isAdhoc
    {
      StepIsSafe(View(), Op.CreateTemplate(u));
      UploadKeysDiffer(nextTemplate, u.ext);
      var id := Flush(Template("", "", false, false, 0, -1));
      StoreUpload(id, u);
    }

    /** Either a new envelope serves the upload, or no row is left of it. */
    method CreateAdhocSubmission(u: Upload, lastFieldPage: int, draft: bool, accepted: bool) returns (reply: Reply)
      modifies this
      ensures (View(), reply) == Step(old(View()), CreateAdhoc(u, lastFieldPage, draft, accepted))
      ensures Safely(old(View()), View(), CreateAdhoc(u, lastFieldPage, draft, accepted))
      ensures reply.Done? <==> lastFieldPage < u.pageCount && accepted
      ensures reply.Done? ==>
                && Document(View(), old(nextEnvelope)) == Some(u.pdf)
                && envelopes[old(nextEnvelope)] == Envelope(old(nextTemplate), if draft then Draft else Pending, false)
                && Stored(View(), old(nextTemplate), u) && templates[old(nextTemplate)].isAdhoc
      ensures !reply.Done? ==> templates == old(templates) && envelopes == old(envelopes)
    {
      StepIsSafe(View(), CreateAdhoc(u, lastFieldPage, draft, accepted));
      UploadKeysDiffer(nextTemplate, u.ext);
      var committed := templates;
      var id := Flush(Template("", "", true, false, 0, lastFieldPage));
      if lastFieldPage >= u.pageCount {
        templates := committed;
        return Refused;
      }
      StoreUpload(id, u);
      assert templates == committed[id := Uploaded(id, u, true, false, lastFieldPage)];
      if !accepted {
        templates := committed;
        return Refused;
      }
      CreateSubmission(id, draft);
      reply := Done;
    }

    method CreateSubmission(template: nat, draft: bool)
      modifies this`envelopes, this`nextEnvelope
      ensures View() == AddEnvelope(old(View()), template, draft)
    {
      envelopes := envelopes[nextEnvelope := Envelope(template, if draft then Draft else Pending, false)];
      nextEnvelope := nextEnvelope + 1;
    }

    /** Fresh files for a fresh row, one for each key the source has. */
    method CloneTemplate(source: Template, isAdhoc: bool) returns (made: bool)
      modifies this`files, this`templates, this`nextTemplate
      ensures made <==> Clone(old(View()), source, isAdhoc).Some?
      ensures View() == if made then Clone(old(View()), source, isAdhoc).value else old(View())
    {
      if source.pdfKey !in files {
        return false;
      }
      var id := Flush(source.(originalKey := "", pdfKey := "", isAdhoc := isAdhoc, archived := false));
      var sources := [source.originalKey, source.pdfKey];
      for attr := 0 to 2
        invariant nextTemplate == id + 1
        invariant attr == 0 ==> files == old(files) && id in templates
                                && templates == old(templates)[id := source.(originalKey := "", pdfKey := "",
                                                                             isAdhoc := isAdhoc, archived := false)]
        invariant attr == 1 ==>
                    var (copied, key) := CopyFile(old(files), id, source.originalKey);
                    && files == copied && id in templates
                    && templates == old(templates)[id := source.(originalKey := key, pdfKey := "",
                                                                 isAdhoc := isAdhoc, archived := false)]
        invariant attr == 2 ==> View() == Clone(old(View()), source, isAdhoc).value
      {
        if sources[attr] != "" && sources[attr] in files {
          var newKey := Key(id, BaseName(sources[attr]));
          files := files[newKey := files[sources[attr]]];
          templates := templates[id := if attr == 0 then templates[id].(originalKey := newKey)
                                       else templates[id].(pdfKey := newKey)];
        }
      }
      made := true;
    }

    /** The new envelope serves the template's bytes; on an ad-hoc template it shares them with its owner. */
    method CreateFromTemplate(t: nat, draft: bool, accepted: bool) returns (reply: Reply)
      modifies this
      ensures (View(), reply) == Step(old(View()), CreateEnvelope(t, draft, accepted))
      ensures Safely(old(View()), View(), CreateEnvelope(t, draft, accepted))
      ensures reply.Done? <==> t in old(templates) && !old(templates)[t].archived && accepted
      ensures reply.Done? ==>
                envelopes == old(envelopes)[old(nextEnvelope) := Envelope(t, if draft then Draft else Pending, false)]
      ensures reply.Done? && Inv(old(View())) ==>
                && Document(View(), old(nextEnvelope)) == TemplateBytes(old(View()), t) != None
                && forall f :: f in old(envelopes) ==>
                     (ShareAdhoc(View(), old(nextEnvelope), f) <==>
                        old(templates)[t].isAdhoc && old(envelopes)[f].template == t)
    {
      StepIsSafe(View(), CreateEnvelope(t, draft, accepted));
      LiveBytes(View(), t);
      if t !in templates { return Refused; }
      if templates[t].archived { return Refused; }
      if !accepted { return Refused; }
      CreateSubmission(t, draft);
      reply := Done;
    }

    /** Refused exactly for a missing or archived template; the clone has the same bytes under its own key. */
    method CopyTemplate(t: nat) returns (reply: Reply)
      modifies this
      ensures (View(), reply) == Step(old(View()), Op.CopyTemplate(t))
      ensures Safely(old(View()), View(), Op.CopyTemplate(t))
      ensures Inv(old(View())) ==>
                && (reply.Done? <==> t in old(templates) && !old(templates)[t].archived)
                && (reply.Done? ==> ClonedFrom(old(View()), View(), t))
    {
      StepIsSafe(View(), Op.CopyTemplate(t));
      CloneMeans(View(), t);
      if t !in templates { return Refused; }
      if templates[t].archived { return Refused; }
      var made := CloneTemplate(templates[t], false);
      reply := if made then Done else Refused;
    }

    /** Wholesale replacement of the fields, refused for a field beyond the last page. */
    method UpdateFields(t: nat, pages: seq<nat>) returns (reply: Reply)
      modifies this
      ensures (View(), reply) == Step(old(View()), EditFields(t, LastPage(pages)))
      ensures Safely(old(View()), View(), EditFields(t, LastPage(pages)))
      ensures reply.Done? <==>
                t in old(templates) && forall k :: 0 <= k < |pages| ==> pages[k] < old(templates)[t].pageCount
      ensures reply.Done? ==>
                && t in templates && (forall k :: 0 <= k < |pages| ==> pages[k] <= templates[t].lastFieldPage)
                && (templates[t].lastFieldPage == -1
                    || exists k :: 0 <= k < |pages| && pages[k] == templates[t].lastFieldPage)
                && templates == old(templates)[t := old(templates)[t].(lastFieldPage := templates[t].lastFieldPage)]
      ensures !reply.Done? ==> View() == old(View())
    {
      StepIsSafe(View(), EditFields(t, LastPage(pages)));
      LastPageIsLast(pages);
      if t !in templates { return Refused; }
      for k := 0 to |pages|
        invariant View() == old(View())
        invariant forall j :: 0 <= j < k ==> pages[j] < templates[t].pageCount
      {
        if pages[k] >= templates[t].pageCount { return Refused; }
      }
      templates := templates[t := templates[t].(lastFieldPage := LastPage(pages))];
      reply := Done;
    }

    method ArchiveTemplate(t: nat) returns (reply: Reply)
      modifies this
      ensures reply.Done? <==> t in old(templates)
      ensures reply.Done? ==> templates == old(templates)[t := old(templates)[t].(archived := true)]
      ensures (View(), reply) == Step(old(View()), Op.ArchiveTemplate(t))
      ensures Safely(old(View()), View(), Op.ArchiveTemplate(t))
    {
      StepIsSafe(View(), Op.ArchiveTemplate(t));
      if t !in templates { return Refused; }
      templates := templates[t := templates[t].(archived := true)];
      reply := Done;
    }

    /** Every envelope can be saved, in any stage; the template has the envelope's bytes under its own key. */
    method SaveAsTemplate(e: nat) returns (reply: Reply)
      modifies this
      ensures (View(), reply) == Step(old(View()), Op.SaveAsTemplate(e))
      ensures Safely(old(View()), View(), Op.SaveAsTemplate(e))
      ensures Inv(old(View())) ==>
                && (reply.Done? <==> e in old(envelopes))
                && (reply.Done? ==> ClonedFrom(old(View()), View(), old(envelopes)[e].template))
    {
      StepIsSafe(View(), Op.SaveAsTemplate(e));
      if e in envelopes {
        CloneMeans(View(), envelopes[e].template);
      }
      if e !in envelopes || envelopes[e].template !in templates { return Refused; }
      var made := CloneTemplate(templates[envelopes[e].template], false);
      reply := if made then Done else Refused;
    }

    /** The copy serves the source's bytes from a template of its own, and the source goes on serving them. */
    method CopySubmission(e: nat, accepted: bool) returns (reply: Reply)
      modifies this
      ensures (View(), reply) == Step(old(View()), CopyEnvelope(e, accepted))
      ensures Safely(old(View()), View(), CopyEnvelope(e, accepted))
      ensures Inv(old(View())) ==>
                && (reply.Done? <==> e in old(envelopes) && accepted)
                && (reply.Done? ==>
                      && Document(View(), old(nextEnvelope)) == Document(View(), e) == Document(old(View()), e) != None
                      && envelopes[old(nextEnvelope)] == Envelope(old(nextTemplate), Draft, false)
                      && old(nextTemplate) in templates && templates[old(nextTemplate)].isAdhoc
                      && envelopes[old(nextEnvelope)].template != envelopes[e].template)
    {
      StepIsSafe(View(), CopyEnvelope(e, accepted));
      if Inv(View()) && e in envelopes {
        CopyReadsTheSame(View(), e);
        CloneIsOneFolder(View(), envelopes[e].template, true);
      }
      if e !in envelopes || envelopes[e].template !in templates {
        return Refused;
      }
      var committed, id := templates, nextTemplate;
      var made := CloneTemplate(templates[envelopes[e].template], true);
      if !made {
        return Refused;
      }
      if !accepted {
        templates := committed;
        return Refused;
      }
      CreateSubmission(id, true);
      reply := Done;
    }

    /** From now on this envelope, and by `Safely` no other, serves the upload, from an ad-hoc template. */
    method ReplaceDocument(e: nat, u: Upload) returns (reply: Reply)
      modifies this
      ensures (View(), reply) == Step(old(View()), Op.ReplaceDocument(e, u))
      ensures Safely(old(View()), View(), Op.ReplaceDocument(e, u))
      ensures reply.Done? <==>
                && e in old(envelopes) && old(envelopes)[e].template in old(templates)
                && !old(envelopes)[e].stage.Closed? && !old(envelopes)[e].signed
                && old(templates)[old(envelopes)[e].template].lastFieldPage < u.pageCount
      ensures reply.Done? ==> Stored(View(), envelopes[e].template, u)
      ensures reply.Done? && !old(templates)[old(envelopes)[e].template].isAdhoc ==>
                envelopes[e].template == old(nextTemplate) && templates[old(nextTemplate)].archived
      ensures reply.Done? ==>
                && Document(View(), e) == Some(u.pdf) && templates[envelopes[e].template].isAdhoc
                && templates[envelopes[e].template].lastFieldPage < templates[envelopes[e].template].pageCount
    {
      StepIsSafe(View(), Op.ReplaceDocument(e, u));
      UploadKeysDiffer(nextTemplate, u.ext);
      if e in envelopes {
        UploadKeysDiffer(envelopes[e].template, u.ext);
      }
      if e !in envelopes || envelopes[e].template !in templates {
        return Refused;
      }
      var template := templates[envelopes[e].template];
      if envelopes[e].stage.Closed? || envelopes[e].signed || template.lastFieldPage >= u.pageCount {
        return Refused;
      }
      var target := envelopes[e].template;
      if !template.isAdhoc {
        target := Flush(Template("", "", true, true, 0, template.lastFieldPage));
        envelopes := envelopes[e := envelopes[e].(template := target)];
      }
      StoreUpload(target, u);
      assert templates == old(templates)[target := Uploaded(target, u, true, !template.isAdhoc || template.archived,
                                                            template.lastFieldPage)];
      reply := Done;
    }

    /** With its ad-hoc template unshared, a draft goes with its row, its template and that template's PDF. */
    method DeleteDraft(e: nat) returns (reply: Reply)
      modifies this
      ensures (View(), reply) == Step(old(View()), Op.DeleteDraft(e))
      ensures Safely(old(View()), View(), Op.DeleteDraft(e))
      ensures Inv(old(View())) ==>
                && (reply.Done? <==> e in old(envelopes) && old(envelopes)[e].stage.Draft?)
                && (reply.Done? ==>
                      var id := old(envelopes)[e].template;
                      && e !in envelopes
                      && (old(templates)[id].isAdhoc ==> id !in templates && PdfKey(id) !in files))
    {
      StepIsSafe(View(), Op.DeleteDraft(e));
      if Inv(View()) {
        DeleteIsSound(View(), e);
        if e in envelopes {
          LiveBytes(View(), envelopes[e].template);
        }
      }
      if e !in envelopes || !envelopes[e].stage.Draft? {
        return Refused;
      }
      var committed, id := envelopes, envelopes[e].template;
      envelopes := envelopes - {e};
      if id in templates && templates[id].isAdhoc {
        files := files - {templates[id].originalKey, templates[id].pdfKey};
        if InUse(envelopes, id) {
          envelopes := committed;
          return Broken;
        }
        templates := templates - {id};
      }
      reply := Done;
    }
  }

  // ---- ownership --------------------------------------------------------------

  /** An archival file name never is, and is never copied to, the working PDF's name. */
  predicate Archival(name: string) {
    BaseName(name) != "document.pdf" && name != "document.pdf"
  }

  ghost predicate OwnOriginal(t: Template, id: nat) {
    t.originalKey == "" || exists name :: Archival(name) && t.originalKey == Key(id, name)
  }

  /** A live template's files carry its own id, and its PDF is there. */
  ghost predicate OwnsFiles(s: Store, id: nat)
    requires id in s.templates
  {
    var t := s.templates[id];
    && id < s.nextTemplate && t.pdfKey == PdfKey(id) && OwnOriginal(t, id)
    && t.pdfKey in s.files && (t.originalKey != "" ==> t.originalKey in s.files)
  }

  ghost predicate Unused(s: Store, id: nat) {
    forall name :: Key(id, name) !in s.files
  }

  ghost predicate Rows(s: Store) {
    && (forall e :: e in s.envelopes ==> e < s.nextEnvelope && s.envelopes[e].template in s.templates)
    && (forall id :: id in s.templates ==> id < s.nextTemplate)
    && forall id :: id >= s.nextTemplate ==> Unused(s, id)
  }

  ghost predicate Owned(s: Store) {
    forall id :: id in s.templates ==> OwnsFiles(s, id)
  }

  predicate ShareAdhoc(s: Store, e: nat, f: nat)
    requires e in s.envelopes && f in s.envelopes
  {
    var id := s.envelopes[e].template;
    s.envelopes[f].template == id && id in s.templates && s.templates[id].isAdhoc
  }

  /** An ad-hoc template belongs to one envelope. */
  predicate Exclusive(s: Store) {
    forall e, f :: e in s.envelopes && f in s.envelopes && e != f ==> !ShareAdhoc(s, e, f)
  }

  ghost predicate Inv(s: Store) { Rows(s) && Owned(s) && Exclusive(s) }

  /** The request names no ad-hoc template as the basis of another envelope. */
  predicate Reuses(s: Store, op: Op) {
    op.CreateEnvelope? && op.template in s.templates && s.templates[op.template].isAdhoc
  }

  /** What an envelope's readers get. */
  function Document(s: Store, e: nat): Option<Content> {
    if e in s.envelopes && s.envelopes[e].template in s.templates
       && s.templates[s.envelopes[e].template].pdfKey in s.files
    then Some(s.files[s.templates[s.envelopes[e].template].pdfKey]) else None
  }

  // ---- frames -----------------------------------------------------------------

  /** Storage differs at most in the folder of one template. */
  ghost predicate Apart(a: map<string, Content>, b: map<string, Content>, id: nat) {
    forall j: nat, name :: j != id ==> SameAt(a, b, Key(j, name))
  }

  predicate SameAt(a: map<string, Content>, b: map<string, Content>, key: string) {
    (key in a <==> key in b) && (key in a ==> a[key] == b[key])
  }

  lemma WriteIsApart(files: map<string, Content>, id: nat, name: string, data: Content)
    ensures Apart(files, files[Key(id, name) := data], id)
  {
    forall j: nat, other | j != id
      ensures SameAt(files, files[Key(id, name) := data], Key(j, other))
    {
      KeysAreDistinct(j, id, other, name);
    }
  }

  lemma ApartTwice(a: map<string, Content>, b: map<string, Content>, c: map<string, Content>, id: nat)
    requires Apart(a, b, id) && Apart(b, c, id)
    ensures Apart(a, c, id)
  {
    forall j: nat, name | j != id
      ensures SameAt(a, c, Key(j, name))
    {
      assert SameAt(a, b, Key(j, name)) && SameAt(b, c, Key(j, name));
    }
  }

  lemma SaveUploadIsApart(files: map<string, Content>, id: nat, u: Upload)
    ensures Apart(files, SaveUpload(files, id, u), id)
  {
    var name := if u.ext == "" then "original" else "original." + u.ext;
    WriteIsApart(files, id, name, u.data);
    WriteIsApart(files[Key(id, name) := u.data], id, "document.pdf", u.pdf);
    ApartTwice(files, files[Key(id, name) := u.data], SaveUpload(files, id, u), id);
  }

  lemma CopyFileIsApart(files: map<string, Content>, id: nat, source: string)
    ensures Apart(files, CopyFile(files, id, source).0, id)
  {
    if source != "" && source in files {
      WriteIsApart(files, id, BaseName(source), files[source]);
    }
  }

  /** A template outside the folder that changed keeps its files. */
  lemma OwnsElsewhere(s: Store, next: Store, id: nat, j: nat)
    requires j in s.templates && OwnsFiles(s, j) && j != id && Apart(s.files, next.files, id)
    requires j in next.templates && next.templates[j] == s.templates[j] && s.nextTemplate <= next.nextTemplate
    ensures OwnsFiles(next, j) && SameAt(s.files, next.files, s.templates[j].pdfKey)
  {
    var t := s.templates[j];
    assert SameAt(s.files, next.files, Key(j, "document.pdf"));
    if t.originalKey != "" {
      var name :| Archival(name) && t.originalKey == Key(j, name);
      assert SameAt(s.files, next.files, Key(j, name));
    }
  }

  lemma UnusedElsewhere(s: Store, next: Store, id: nat)
    requires Rows(s) && Apart(s.files, next.files, id) && id < next.nextTemplate && s.nextTemplate <= next.nextTemplate
    ensures forall j :: j >= next.nextTemplate ==> Unused(next, j)
  {
    forall j | j >= next.nextTemplate
      ensures Unused(next, j)
    {
      assert Unused(s, j);
      forall name
        ensures Key(j, name) !in next.files
      {
        assert SameAt(s.files, next.files, Key(j, name));
      }
    }
  }

  lemma OriginalNameIsArchival(ext: Extension)
    ensures Archival(if ext == "" then "original" else "original." + ext)
  {
    var name := if ext == "" then "original" else "original." + ext;
    assert name[0] == 'o' && "document.pdf"[0] == 'd';
    BaseNameIsBase(name);
    if '/' in name {
      var dotless := NoDotAfterSlash(name, ext);
      assert "document.pdf"[8] == '.';
    }
  }

  lemma NoDotAfterSlash(name: string, ext: Extension) returns (base: string)
    requires name == (if ext == "" then "original" else "original." + ext) && '/' in name
    ensures base == BaseName(name) && '.' !in base
  {
    base := BaseName(name);
    assert '/' !in "original." && name == "original." + ext;
    assert '/' in ext;
    SlashFurtherOn("original.", ext);
    DotlessBase(ext);
  }

  lemma {:induction false} SlashFurtherOn(front: string, rest: string)
    requires '/' in rest
    ensures BaseName(front + rest) == BaseName(rest)
    decreases |front|
  {
    if front == "" {
      assert front + rest == rest;
    } else {
      assert (front + rest)[1..] == front[1..] + rest;
      SlashFurtherOn(front[1..], rest);
    }
  }

  lemma {:induction false} DotlessBase(s: string)
    requires '.' !in s
    ensures '.' !in BaseName(s)
  {
    if '/' in s {
      DotlessBase(s[1..]);
    }
  }

  /** The files of an upload belong to its template. */
  lemma UploadOwnsFiles(s: Store, id: nat, u: Upload)
    requires id in s.templates && id < s.nextTemplate
    requires s.templates[id].originalKey == OriginalKey(id, u.ext) && s.templates[id].pdfKey == PdfKey(id)
    requires PdfKey(id) in s.files && OriginalKey(id, u.ext) in s.files
    ensures OwnsFiles(s, id)
  {
    OriginalNameIsArchival(u.ext);
  }

  // ---- what every operation keeps ---------------------------------------------

  /** One folder changed, one row was written or none, and that row owns its files. */
  ghost predicate OneFolder(s: Store, next: Store, id: nat) {
    && Apart(s.files, next.files, id) && s.nextTemplate <= next.nextTemplate && id < next.nextTemplate
    && (forall j :: j != id ==> (j in s.templates <==> j in next.templates))
    && (forall j :: j in s.templates && j != id ==> next.templates[j] == s.templates[j])
    && (id in next.templates ==> OwnsFiles(next, id))
  }

  lemma OneFolderKeepsOwnership(s: Store, next: Store, id: nat)
    requires Rows(s) && Owned(s) && OneFolder(s, next, id)
    ensures Owned(next)
    ensures forall j :: j >= next.nextTemplate ==> Unused(next, j)
    ensures forall j :: j in next.templates ==> j < next.nextTemplate
    ensures forall j :: j in s.templates && j != id ==> KeepsTemplate(s, next, j, false)
  {
    UnusedElsewhere(s, next, id);
    forall j | j in s.templates && j != id
      ensures KeepsTemplate(s, next, j, false)
    {
      OwnsElsewhere(s, next, id, j);
    }
    forall j | j in next.templates
      ensures OwnsFiles(next, j)
    {
      if j != id {
        OwnsElsewhere(s, next, id, j);
      }
    }
  }

  lemma UploadIsOneFolder(s: Store, next: Store, id: nat, u: Upload)
    requires Rows(s) && id <= s.nextTemplate && next.files == SaveUpload(s.files, id, u)
    requires id < next.nextTemplate && s.nextTemplate <= next.nextTemplate
    requires forall j :: j != id ==> (j in s.templates <==> j in next.templates)
    requires forall j :: j in s.templates && j != id ==> next.templates[j] == s.templates[j]
    requires id in next.templates ==>
               next.templates[id].originalKey == OriginalKey(id, u.ext) && next.templates[id].pdfKey == PdfKey(id)
    ensures OneFolder(s, next, id)
  {
    SaveUploadIsApart(s.files, id, u);
    if id in next.templates {
      UploadOwnsFiles(next, id, u);
    }
  }

  lemma KeyBase(id: nat, name: string)
    ensures BaseName(Key(id, name)) == BaseName(name)
  {
    BaseNameSkips(FOLDER + Decimal(id), name);
  }

  lemma CopiedOriginal(s: Store, from: nat, id: nat)
    requires from in s.templates && OwnsFiles(s, from) && from != id
    ensures var (files, key) := CopyFile(s.files, id, s.templates[from].originalKey);
            && Apart(s.files, files, id) && SameAt(s.files, files, PdfKey(from))
            && (key == "" || (key in files && exists name :: Archival(name) && key == Key(id, name)))
  {
    var source := s.templates[from].originalKey;
    CopyFileIsApart(s.files, id, source);
    assert SameAt(s.files, CopyFile(s.files, id, source).0, Key(from, "document.pdf"));
    if source != "" {
      var name :| Archival(name) && source == Key(from, name);
      KeyBase(from, name);
      BaseNameIsBase(name);
      assert Archival(BaseName(name));
    }
  }

  lemma PlainBase(id: nat, name: string)
    requires '/' !in name
    ensures BaseName(Key(id, name)) == name
  {
    KeyBase(id, name);
  }

  lemma CopiedPdf(files: map<string, Content>, from: nat, id: nat)
    requires PdfKey(from) in files
    ensures CopyFile(files, id, PdfKey(from)) == (files[PdfKey(id) := files[PdfKey(from)]], PdfKey(id))
    ensures Apart(files, CopyFile(files, id, PdfKey(from)).0, id)
  {
    CopyFileIsApart(files, id, PdfKey(from));
    PlainBase(from, "document.pdf");
  }

  /** A clone has the source's bytes in a folder of its own. */
  lemma CloneIsOneFolder(s: Store, from: nat, isAdhoc: bool)
    requires Rows(s) && from in s.templates && OwnsFiles(s, from)
    ensures Clone(s, s.templates[from], isAdhoc).Some?
    ensures var made := Clone(s, s.templates[from], isAdhoc).value;
            && OneFolder(s, made, s.nextTemplate) && s.nextTemplate in made.templates
            && made.templates[s.nextTemplate].pdfKey in made.files
            && made.files[made.templates[s.nextTemplate].pdfKey] == s.files[s.templates[from].pdfKey]
  {
    var source, id := s.templates[from], s.nextTemplate;
    var made := Clone(s, source, isAdhoc).value;
    var files := CopyFile(s.files, id, source.originalKey).0;
    CopiedOriginal(s, from, id);
    CopiedPdf(files, from, id);
    ApartTwice(s.files, files, made.files, id);
    assert OwnsFiles(made, id);
  }

  /** The envelope a request is about. */
  predicate ActsOn(op: Op, e: nat) {
    (op.ReplaceDocument? || op.DeleteDraft? || op.Advance?) && op.envelope == e
  }

  /** Everybody but the envelopes acted on reads what they read before. */
  ghost predicate Undisturbed(s: Store, next: Store, op: Op) {
    forall f :: f in s.envelopes && !ActsOn(op, f) ==> KeepsReading(s, next, f)
  }

  predicate KeepsReading(s: Store, next: Store, f: nat) {
    && f in s.envelopes && f in next.envelopes && next.envelopes[f] == s.envelopes[f]
    && Document(s, f).Some? && Document(next, f) == Document(s, f)
  }

  predicate Edits(op: Op, id: nat) { op.EditFields? && op.template == id }

  /** A reusable template's row and bytes stay, whatever is done to envelopes made from it; it may be archived,
      and when its fields are edited the last page with a field may move. */
  predicate KeepsTemplate(s: Store, next: Store, id: nat, edited: bool)
    requires id in s.templates
  {
    && id in next.templates && SameAt(s.files, next.files, s.templates[id].pdfKey)
    && var (row, later) := (s.templates[id], next.templates[id]);
       && later == row.(archived := later.archived, lastFieldPage := later.lastFieldPage)
       && (row.archived ==> later.archived) && (edited || later.lastFieldPage == row.lastFieldPage)
  }

  ghost predicate Sound(s: Store, next: Store, op: Op) {
    && Inv(next) && Undisturbed(s, next, op)
    && forall id :: id in s.templates && !s.templates[id].isAdhoc ==> KeepsTemplate(s, next, id, Edits(op, id))
  }

  /** On a sound store the operation leaves a sound one and disturbs nobody, unless it reuses an ad-hoc template. */
  ghost predicate Safely(s: Store, next: Store, op: Op) {
    Inv(s) && !Reuses(s, op) ==> Sound(s, next, op)
  }

  lemma StepIsSafe(s: Store, op: Op)
    ensures Safely(s, Step(s, op).0, op)
  {
    if Inv(s) && !Reuses(s, op) {
      StepIsSound(s, op);
    }
  }

  function TemplateBytes(s: Store, t: nat): Option<Content> {
    if t in s.templates && s.templates[t].pdfKey in s.files then Some(s.files[s.templates[t].pdfKey]) else None
  }

  /** This template's row and files are the upload's: the PDF to work on and the original as uploaded. */
  predicate Stored(s: Store, t: nat, u: Upload) {
    && t in s.templates && s.templates[t].pageCount == u.pageCount
    && s.templates[t].pdfKey in s.files && s.files[s.templates[t].pdfKey] == u.pdf
    && s.templates[t].originalKey in s.files && s.files[s.templates[t].originalKey] == u.data
  }

  lemma UploadKeysDiffer(id: nat, ext: Extension)
    ensures OriginalKey(id, ext) != PdfKey(id)
  {
    OriginalNameIsArchival(ext);
    KeysAreDistinct(id, id, if ext == "" then "original" else "original." + ext, "document.pdf");
  }

  /** What a key looks like. */
  lemma KeyOfTwelve()
    ensures PdfKey(12) == "templates/12/document.pdf"
  {
    assert Decimal(12) == Decimal(1) + [Digit(2)] && Decimal(1) == "1";
  }

  function OriginalBytes(s: Store, t: nat): Option<Content> {
    if t in s.templates && s.templates[t].originalKey != "" && s.templates[t].originalKey in s.files
    then Some(s.files[s.templates[t].originalKey]) else None
  }

  /** The newest template has the bytes of t, its original and its fields, and t keeps its own, under different
      keys. */
  predicate ClonedFrom(s: Store, next: Store, t: nat) {
    && t in s.templates && t in next.templates && s.nextTemplate in next.templates
    && OriginalBytes(next, s.nextTemplate) == OriginalBytes(s, t)
    && next.templates[s.nextTemplate].pageCount == s.templates[t].pageCount
    && next.templates[s.nextTemplate].lastFieldPage == s.templates[t].lastFieldPage
    && TemplateBytes(next, s.nextTemplate) == TemplateBytes(next, t) == TemplateBytes(s, t) != None
    && next.templates[s.nextTemplate].pdfKey != next.templates[t].pdfKey
    && !next.templates[s.nextTemplate].isAdhoc && !next.templates[s.nextTemplate].archived
  }

  lemma LiveBytes(s: Store, t: nat)
    ensures Inv(s) && t in s.templates ==> TemplateBytes(s, t).Some? && s.templates[t].pdfKey == PdfKey(t)
  {
    assert Inv(s) && t in s.templates ==> OwnsFiles(s, t);
  }

  lemma CloneMeans(s: Store, t: nat)
    ensures Inv(s) && t in s.templates ==>
              DoClone(s, s.templates[t]).1.Done? && ClonedFrom(s, DoClone(s, s.templates[t]).0, t)
  {
    if Inv(s) && t in s.templates {
      CloneIsOneFolder(s, t, false);
      var next := DoClone(s, s.templates[t]).0;
      OwnsElsewhere(s, next, s.nextTemplate, t);
      KeysAreDistinct(s.nextTemplate, t, "document.pdf", "document.pdf");
      CloneKeepsOriginal(s, t);
    }
  }

  lemma CloneKeepsOriginal(s: Store, t: nat)
    requires Inv(s) && t in s.templates
    ensures OriginalBytes(DoClone(s, s.templates[t]).0, s.nextTemplate) == OriginalBytes(s, t)
  {
    var (source, id) := (s.templates[t], s.nextTemplate);
    CloneIsOneFolder(s, t, false);
    CopiedOriginal(s, t, id);
    CopiedPdf(CopyFile(s.files, id, source.originalKey).0, t, id);
    var key := CopyFile(s.files, id, source.originalKey).1;
    if source.originalKey != "" {
      var name :| Archival(name) && key == Key(id, name);
      KeysAreDistinct(id, id, name, "document.pdf");
    }
  }

  lemma FolderIsPrivate(s: Store, next: Store, id: nat, f: nat)
    requires Rows(s) && Owned(s) && OneFolder(s, next, id)
    requires f in s.envelopes && s.envelopes[f].template != id
    requires f in next.envelopes && next.envelopes[f] == s.envelopes[f]
    ensures KeepsReading(s, next, f)
  {
    OwnsElsewhere(s, next, id, s.envelopes[f].template);
  }

  /** Work in a fresh folder whose row, if it stays, gets at most the envelope `e`. */
  lemma FreshFolderIsSound(s: Store, next: Store, op: Op, e: nat)
    requires Inv(s) && OneFolder(s, next, s.nextTemplate) && s.nextEnvelope <= next.nextEnvelope
    requires forall f :: f in next.envelopes && f != e ==> f in s.envelopes && next.envelopes[f] == s.envelopes[f]
    requires forall f :: f in s.envelopes && f != e ==> f in next.envelopes
    requires e in next.envelopes ==>
               e < next.nextEnvelope && next.envelopes[e].template == s.nextTemplate && s.nextTemplate in next.templates
    requires e in s.envelopes ==> ActsOn(op, e)
    ensures Sound(s, next, op)
  {
    OneFolderKeepsOwnership(s, next, s.nextTemplate);
    forall f | f in s.envelopes && !ActsOn(op, f)
      ensures KeepsReading(s, next, f)
    {
      FolderIsPrivate(s, next, s.nextTemplate, f);
    }
    forall f, g | f in next.envelopes && g in next.envelopes && f != g
      ensures !ShareAdhoc(next, f, g)
    {
      if f != e && g != e {
        assert !ShareAdhoc(s, f, g);
      }
    }
  }

  /** No file and no template changes, and no ad-hoc template gets a second envelope. */
  lemma RowsOnlyIsSound(s: Store, next: Store, op: Op, e: nat)
    requires Inv(s) && next.files == s.files && next.templates == s.templates && next.nextTemplate >= s.nextTemplate
    requires s.nextEnvelope <= next.nextEnvelope
    requires forall f :: f in next.envelopes && f != e ==> f in s.envelopes && next.envelopes[f] == s.envelopes[f]
    requires forall f :: f in s.envelopes && f != e ==> f in next.envelopes
    requires e in next.envelopes ==>
               && e < next.nextEnvelope && next.envelopes[e].template in s.templates
               && (s.templates[next.envelopes[e].template].isAdhoc ==>
                     e in s.envelopes && s.envelopes[e].template == next.envelopes[e].template)
    requires e in s.envelopes ==> ActsOn(op, e)
    ensures Sound(s, next, op)
  {
    forall j | j in next.templates
      ensures OwnsFiles(next, j)
    {
      assert OwnsFiles(s, j);
    }
    forall j | j >= next.nextTemplate
      ensures Unused(next, j)
    {
      assert Unused(s, j);
    }
    forall f | f in s.envelopes && !ActsOn(op, f)
      ensures KeepsReading(s, next, f)
    {
      assert OwnsFiles(s, s.envelopes[f].template);
    }
    forall f, g | f in next.envelopes && g in next.envelopes && f != g
      ensures !ShareAdhoc(next, f, g)
    {
      assert f in s.envelopes && g in s.envelopes ==> !ShareAdhoc(s, f, g);
    }
  }

  lemma ReplaceIsSound(s: Store, e: nat, u: Upload)
    requires Inv(s)
    ensures Sound(s, DoReplaceDocument(s, e, u).0, ReplaceDocument(e, u))
  {
    var (next, reply) := DoReplaceDocument(s, e, u);
    if reply.Refused? {
      RowsOnlyIsSound(s, next, ReplaceDocument(e, u), e);
    } else if s.templates[s.envelopes[e].template].isAdhoc {
      OwnFolderIsSound(s, next, ReplaceDocument(e, u), e);
    } else {
      UploadIsOneFolder(s, next, s.nextTemplate, u);
      FreshFolderIsSound(s, next, ReplaceDocument(e, u), e);
    }
  }

  /** A replacement in place changes the folder of the one envelope that owns the ad-hoc template. */
  lemma OwnFolderIsSound(s: Store, next: Store, op: Op, e: nat)
    requires Inv(s) && op.ReplaceDocument? && op.envelope == e && (next, Done) == DoReplaceDocument(s, e, op.upload)
    requires s.templates[s.envelopes[e].template].isAdhoc
    ensures Sound(s, next, op)
  {
    var id := s.envelopes[e].template;
    UploadIsOneFolder(s, next, id, op.upload);
    OneFolderKeepsOwnership(s, next, id);
    forall f | f in s.envelopes && f != e
      ensures KeepsReading(s, next, f)
    {
      assert !ShareAdhoc(s, e, f);
      FolderIsPrivate(s, next, id, f);
    }
    forall f, g | f in next.envelopes && g in next.envelopes && f != g
      ensures !ShareAdhoc(next, f, g)
    {
      assert !ShareAdhoc(s, f, g);
    }
  }

  lemma DeleteIsApart(s: Store, id: nat)
    requires id in s.templates && OwnsFiles(s, id)
    ensures Apart(s.files, s.files - {s.templates[id].originalKey, s.templates[id].pdfKey}, id)
  {
    var t := s.templates[id];
    var left := s.files - {t.originalKey, t.pdfKey};
    forall j: nat, name | j != id
      ensures SameAt(s.files, left, Key(j, name))
    {
      KeysAreDistinct(j, id, name, "document.pdf");
      if t.originalKey != "" {
        var own :| Archival(own) && t.originalKey == Key(id, own);
        KeysAreDistinct(j, id, name, own);
      }
    }
  }

  lemma DeleteIsSound(s: Store, e: nat)
    requires Inv(s)
    ensures Sound(s, DoDeleteDraft(s, e).0, DeleteDraft(e))
    ensures !DoDeleteDraft(s, e).1.Broken?
  {
    var (next, reply) := DoDeleteDraft(s, e);
    if reply.Refused? || !s.templates[s.envelopes[e].template].isAdhoc {
      RowsOnlyIsSound(s, next, DeleteDraft(e), e);
    } else {
      var id := s.envelopes[e].template;
      assert !InUse(s.envelopes - {e}, id) by {
        forall f | f in s.envelopes && f != e
          ensures s.envelopes[f].template != id
        {
          assert !ShareAdhoc(s, e, f);
        }
      }
      DeleteIsApart(s, id);
      assert OneFolder(s, next, id);
      OneFolderKeepsOwnership(s, next, id);
      forall f | f in s.envelopes && f != e
        ensures KeepsReading(s, next, f)
      {
        assert !ShareAdhoc(s, e, f);
        FolderIsPrivate(s, next, id, f);
      }
      forall f, g | f in next.envelopes && g in next.envelopes && f != g
        ensures !ShareAdhoc(next, f, g)
      {
        assert !ShareAdhoc(s, f, g);
      }
    }
  }

  lemma CopyIsSound(s: Store, e: nat, accepted: bool)
    requires Inv(s)
    ensures Sound(s, DoCopyEnvelope(s, e, accepted).0, CopyEnvelope(e, accepted))
  {
    var (next, reply) := DoCopyEnvelope(s, e, accepted);
    if e in s.envelopes {
      CloneIsOneFolder(s, s.envelopes[e].template, true);
      FreshFolderIsSound(s, next, CopyEnvelope(e, accepted), s.nextEnvelope);
    } else {
      RowsOnlyIsSound(s, next, CopyEnvelope(e, accepted), s.nextEnvelope);
    }
  }

  lemma CreateAdhocIsSound(s: Store, u: Upload, lastFieldPage: int, draft: bool, accepted: bool)
    requires Inv(s)
    ensures Sound(s, DoCreateAdhoc(s, u, lastFieldPage, draft, accepted).0,
                  CreateAdhoc(u, lastFieldPage, draft, accepted))
  {
    var op := CreateAdhoc(u, lastFieldPage, draft, accepted);
    var next := DoCreateAdhoc(s, u, lastFieldPage, draft, accepted).0;
    if lastFieldPage >= u.pageCount {
      RowsOnlyIsSound(s, next, op, s.nextEnvelope);
    } else {
      UploadIsOneFolder(s, next, s.nextTemplate, u);
      FreshFolderIsSound(s, next, op, s.nextEnvelope);
    }
  }

  lemma CreateTemplateIsSound(s: Store, u: Upload)
    requires Inv(s)
    ensures Sound(s, DoCreateTemplate(s, u), CreateTemplate(u))
  {
    UploadIsOneFolder(s, DoCreateTemplate(s, u), s.nextTemplate, u);
    FreshFolderIsSound(s, DoCreateTemplate(s, u), CreateTemplate(u), s.nextEnvelope);
  }

  lemma CloneRowIsSound(s: Store, from: nat, op: Op)
    requires Inv(s) && from in s.templates
    ensures Sound(s, DoClone(s, s.templates[from]).0, op) && !DoClone(s, s.templates[from]).1.Broken?
  {
    CloneIsOneFolder(s, from, false);
    FreshFolderIsSound(s, DoClone(s, s.templates[from]).0, op, s.nextEnvelope);
  }

  lemma CopyTemplateIsSound(s: Store, t: nat)
    requires Inv(s)
    ensures Sound(s, DoCopyTemplate(s, t).0, CopyTemplate(t)) && !DoCopyTemplate(s, t).1.Broken?
  {
    if t in s.templates && !s.templates[t].archived {
      CloneRowIsSound(s, t, CopyTemplate(t));
    } else {
      RowsOnlyIsSound(s, s, CopyTemplate(t), s.nextEnvelope);
    }
  }

  lemma SaveAsTemplateIsSound(s: Store, e: nat)
    requires Inv(s)
    ensures Sound(s, DoSaveAsTemplate(s, e).0, SaveAsTemplate(e)) && !DoSaveAsTemplate(s, e).1.Broken?
  {
    if e in s.envelopes {
      CloneRowIsSound(s, s.envelopes[e].template, SaveAsTemplate(e));
    } else {
      RowsOnlyIsSound(s, s, SaveAsTemplate(e), s.nextEnvelope);
    }
  }

  lemma CreateEnvelopeIsSound(s: Store, t: nat, draft: bool, accepted: bool)
    requires Inv(s) && !Reuses(s, CreateEnvelope(t, draft, accepted))
    ensures Sound(s, DoCreateEnvelope(s, t, draft, accepted).0, CreateEnvelope(t, draft, accepted))
  {
    RowsOnlyIsSound(s, DoCreateEnvelope(s, t, draft, accepted).0, CreateEnvelope(t, draft, accepted), s.nextEnvelope);
  }

  /** Archiving a template or editing its fields. */
  lemma RowEditIsSound(s: Store, op: Op, t: nat, row: Template)
    requires Inv(s) && t in s.templates
    requires row == s.templates[t].(archived := row.archived, lastFieldPage := row.lastFieldPage)
    requires s.templates[t].archived ==> row.archived
    requires Edits(op, t) || row.lastFieldPage == s.templates[t].lastFieldPage
    ensures Sound(s, s.(templates := s.templates[t := row]), op)
  {
    var next := s.(templates := s.templates[t := row]);
    RowEditKeepsInv(s, t, row);
    forall f | f in s.envelopes
      ensures KeepsReading(s, next, f)
    {
      assert OwnsFiles(s, s.envelopes[f].template);
    }
  }

  lemma RowEditKeepsInv(s: Store, t: nat, row: Template)
    requires Inv(s) && t in s.templates
    requires row == s.templates[t].(archived := row.archived, lastFieldPage := row.lastFieldPage)
    ensures Inv(s.(templates := s.templates[t := row]))
  {
    var next := s.(templates := s.templates[t := row]);
    forall j | j in next.templates
      ensures OwnsFiles(next, j)
    {
      assert OwnsFiles(s, j);
    }
    forall j | j >= next.nextTemplate
      ensures Unused(next, j)
    {
      assert Unused(s, j);
    }
    forall f, g | f in next.envelopes && g in next.envelopes && f != g
      ensures !ShareAdhoc(next, f, g)
    {
      assert !ShareAdhoc(s, f, g);
    }
  }

  lemma AdvanceIsSound(s: Store, e: nat, stage: Stage, signed: bool)
    requires Inv(s)
    ensures Sound(s, DoAdvance(s, e, stage, signed).0, Advance(e, stage, signed))
  {
    RowsOnlyIsSound(s, DoAdvance(s, e, stage, signed).0, Advance(e, stage, signed), e);
  }

  /** Every operation that does not reuse an ad-hoc template keeps every template's files its own, and changes
      what nobody else reads. */
  lemma StepIsSound(s: Store, op: Op)
    requires Inv(s) && !Reuses(s, op)
    ensures Sound(s, Step(s, op).0, op) && !Step(s, op).1.Broken?
  {
    match op
    case CreateTemplate(u) => CreateTemplateIsSound(s, u);
    case CreateAdhoc(u, lastFieldPage, draft, accepted) => CreateAdhocIsSound(s, u, lastFieldPage, draft, accepted);
    case CreateEnvelope(t, draft, accepted) => CreateEnvelopeIsSound(s, t, draft, accepted);
    case CopyTemplate(t) => CopyTemplateIsSound(s, t);
    case CopyEnvelope(e, accepted) => CopyIsSound(s, e, accepted);
    case SaveAsTemplate(e) => SaveAsTemplateIsSound(s, e);
    case ReplaceDocument(e, u) => ReplaceIsSound(s, e, u);
    case DeleteDraft(e) => DeleteIsSound(s, e);
    case EditFields(t, lastFieldPage) =>
      if DoEditFields(s, t, lastFieldPage).1.Done? {
        RowEditIsSound(s, op, t, s.templates[t].(lastFieldPage := lastFieldPage));
      } else {
        RowsOnlyIsSound(s, s, op, s.nextEnvelope);
      }
    case ArchiveTemplate(t) =>
      if t in s.templates {
        RowEditIsSound(s, op, t, s.templates[t].(archived := true));
      } else {
        RowsOnlyIsSound(s, s, op, s.nextEnvelope);
      }
    case Advance(e, stage, signed) => AdvanceIsSound(s, e, stage, signed);
  }

  // ---- every run --------------------------------------------------------------

  function Run(s: Store, ops: seq<Op>): Store {
    if ops == [] then s else Step(Run(s, ops[..|ops| - 1]), ops[|ops| - 1]).0
  }

  /** No request on the way bases an envelope on an ad-hoc template. */
  predicate Careful(s: Store, ops: seq<Op>) {
    ops == [] || (Careful(s, ops[..|ops| - 1]) && !Reuses(Run(s, ops[..|ops| - 1]), ops[|ops| - 1]))
  }

  const EMPTY := Store(map[], map[], map[], 0, 0)

  /** On every careful run, each template that has a row finds its PDF, and its original if it kept one, under
      its own id, and no two envelopes share an ad-hoc template. */
  lemma {:induction false} FilesStayOwned(ops: seq<Op>)
    requires Careful(EMPTY, ops)
    ensures Inv(Run(EMPTY, ops))
  {
    if ops != [] {
      var n := |ops| - 1;
      FilesStayOwned(ops[..n]);
      StepIsSound(Run(EMPTY, ops[..n]), ops[n]);
    }
  }

  /** However many other envelopes and templates are created, copied, replaced and deleted, an envelope nobody
      acts on serves the same bytes. */
  lemma {:induction false} OthersNeverDisturb(s: Store, ops: seq<Op>, f: nat)
    requires Inv(s) && Careful(s, ops) && f in s.envelopes
    requires forall k :: 0 <= k < |ops| ==> !ActsOn(ops[k], f)
    ensures KeepsReading(s, Run(s, ops), f) && Inv(Run(s, ops))
  {
    if ops == [] {
      assert OwnsFiles(s, s.envelopes[f].template);
    } else {
      var n := |ops| - 1;
      OthersNeverDisturb(s, ops[..n], f);
      StepIsSound(Run(s, ops[..n]), ops[n]);
      assert KeepsReading(Run(s, ops[..n]), Run(s, ops), f);
    }
  }

  predicate EditedIn(ops: seq<Op>, id: nat) {
    exists k :: 0 <= k < |ops| && Edits(ops[k], id)
  }

  /** No careful run changes the row or the bytes of a reusable template, but for archiving it and for edits of
      its own fields. */
  lemma {:induction false} ReusableNeverChanges(s: Store, ops: seq<Op>, id: nat)
    requires Inv(s) && Careful(s, ops) && id in s.templates && !s.templates[id].isAdhoc
    ensures Inv(Run(s, ops)) && KeepsTemplate(s, Run(s, ops), id, EditedIn(ops, id))
  {
    if ops != [] {
      var n := |ops| - 1;
      ReusableNeverChanges(s, ops[..n], id);
      StepIsSound(Run(s, ops[..n]), ops[n]);
      assert KeepsTemplate(Run(s, ops[..n]), Run(s, ops), id, Edits(ops[n], id));
      if EditedIn(ops[..n], id) {
        var k :| 0 <= k < n && Edits(ops[..n][k], id);
        assert Edits(ops[k], id);
      }
    }
  }

  /** No template has a field beyond its last page. */
  predicate FieldsFit(s: Store) {
    forall id :: id in s.templates ==> s.templates[id].lastFieldPage < s.templates[id].pageCount
  }

  lemma StepKeepsFieldsFit(s: Store, op: Op)
    requires FieldsFit(s)
    ensures FieldsFit(Step(s, op).0)
  {
  }

  /** Over every run, careful or not, each template's fields lie on pages it has. */
  lemma {:induction false} FieldsAlwaysFit(ops: seq<Op>)
    ensures FieldsFit(Run(EMPTY, ops))
  {
    if ops != [] {
      FieldsAlwaysFit(ops[..|ops| - 1]);
      StepKeepsFieldsFit(Run(EMPTY, ops[..|ops| - 1]), ops[|ops| - 1]);
    }
  }

  /** A copy of an envelope starts with the bytes of its source, and the source keeps its own. */
  lemma CopyReadsTheSame(s: Store, e: nat)
    requires Inv(s) && e in s.envelopes
    ensures var (next, reply) := Step(s, CopyEnvelope(e, true));
            && reply.Done? && Document(s, e).Some?
            && Document(next, s.nextEnvelope) == Document(next, e) == Document(s, e)
            && next.envelopes[s.nextEnvelope].template != next.envelopes[e].template
  {
    var id := s.envelopes[e].template;
    var made := Clone(s, s.templates[id], true);
    CopyMakes(s, e);
    SourceKeepsReading(s, e);
    NewEnvelopeReads(made.value, s.nextTemplate, true);
  }

  lemma CopyMakes(s: Store, e: nat)
    requires Inv(s) && e in s.envelopes
    ensures var (id, made) := (s.envelopes[e].template, Clone(s, s.templates[s.envelopes[e].template], true));
            && made.Some? && DoCopyEnvelope(s, e, true) == (AddEnvelope(made.value, s.nextTemplate, true), Done)
            && TemplateBytes(made.value, s.nextTemplate) == TemplateBytes(s, id)
  {
    var id := s.envelopes[e].template;
    assert OwnsFiles(s, id);
    CloneIsOneFolder(s, id, true);
  }

  lemma SourceKeepsReading(s: Store, e: nat)
    requires Inv(s) && e in s.envelopes
    ensures KeepsReading(s, DoCopyEnvelope(s, e, true).0, e) && s.envelopes[e].template < s.nextTemplate
  {
    CopyIsSound(s, e, true);
  }

  lemma NewEnvelopeReads(s: Store, t: nat, draft: bool)
    ensures Document(AddEnvelope(s, t, draft), s.nextEnvelope) == TemplateBytes(s, t)
  {
  }

  /** What a shared ad-hoc template leads to.  Deleting a draft takes away the document of another envelope
      exactly when the two share one; the deletion then fails as well, with every row still there. */
  lemma DeleteDisturbsIff(s: Store, e: nat, f: nat)
    requires Rows(s) && Owned(s) && e in s.envelopes && f in s.envelopes && e != f
    ensures var (next, reply) := Step(s, DeleteDraft(e));
            var hit := s.envelopes[e].stage.Draft? && ShareAdhoc(s, e, f);
            && (Document(next, f) != Document(s, f) <==> hit)
            && (hit ==> reply.Broken? && Document(next, f).None? && next == s.(files := next.files))
  {
    var (id, j) := (s.envelopes[e].template, s.envelopes[f].template);
    assert OwnsFiles(s, id) && OwnsFiles(s, j);
    assert f in s.envelopes - {e};
    if j != id {
      DeleteIsApart(s, id);
      assert SameAt(s.files, s.files - {s.templates[id].originalKey, s.templates[id].pdfKey}, Key(j, "document.pdf"));
    }
  }

  /** And a replacement in place swaps the document of every envelope that shares the ad-hoc template. */
  lemma ReplaceDisturbsIff(s: Store, e: nat, u: Upload, f: nat)
    requires Rows(s) && Owned(s) && e in s.envelopes && f in s.envelopes && e != f
    ensures var (envelope, next) := (s.envelopes[e], Step(s, ReplaceDocument(e, u)).0);
            Document(next, f) != Document(s, f) <==>
              && !envelope.stage.Closed? && !envelope.signed
              && s.templates[envelope.template].lastFieldPage < u.pageCount
              && ShareAdhoc(s, e, f) && Document(s, f) != Some(u.pdf)
  {
    var (id, j) := (s.envelopes[e].template, s.envelopes[f].template);
    assert OwnsFiles(s, id) && OwnsFiles(s, j);
    SaveUploadIsApart(s.files, id, u);
    SaveUploadIsApart(s.files, s.nextTemplate, u);
    assert j != id ==> SameAt(s.files, SaveUpload(s.files, id, u), Key(j, "document.pdf"));
    assert SameAt(s.files, SaveUpload(s.files, s.nextTemplate, u), Key(j, "document.pdf"));
  }

  /** Three requests lead there: an ad-hoc draft, an envelope created from that draft's template, and the
      deletion of the draft.  The pending envelope has lost its document. */
  lemma SharedDraftLosesDocument(u: Upload)
    requires u.pageCount > 0
    ensures var ops := [CreateAdhoc(u, -1, true, true), CreateEnvelope(0, false, true), DeleteDraft(0)];
            var now := Run(EMPTY, ops);
            && !Careful(EMPTY, ops) && 1 in now.envelopes && now.envelopes[1].stage.Pending?
            && 0 in now.envelopes && 0 in now.templates && Document(now, 1).None?
  {
    var (first, second, third) := (CreateAdhoc(u, -1, true, true), CreateEnvelope(0, false, true), DeleteDraft(0));
    assert [first, second, third][..2] == [first, second] && [first, second][..1] == [first] && [first][..0] == [];
    var one := Step(EMPTY, first).0;
    var two := Step(one, second).0;
    var run := [first, second];
    assert Run(EMPTY, run[..1]) == one;
    assert run[1] == second && Run(EMPTY, run) == two;
    assert Run(EMPTY, [first, second, third]) == Step(two, third).0;
    assert InUse(two.envelopes - {0}, 0) by {
      assert 1 in two.envelopes - {0};
    }
    assert Reuses(one, second);
  }
}
