/**
 From the fields on a template to the marks on the signed PDF: which recipient owns a
 field, which values a signer may submit for it, and what stamping draws.
 */
module Fields {
  import opened Basics
  import opened Envelope

  datatype Kind = Signature | Initials | Name | Date | TextInput | Checkbox | Dropdown | Radio | Upload | Label

  datatype Format = Free | Email | Number

  datatype Field = Field(id: string, kind: Kind, role: string, page: nat, required: bool, options: seq<string>,
                         format: Format, default: string)

  datatype Template = Template(roles: seq<string>, fields: seq<Field>, pageCount: nat)

  /** A recipient named in a create or send request. */
  datatype Signer = Signer(role: string, userId: UserId, isCc: bool)

  // ---- the role mapping -------------------------------------------------------

  datatype MappingError =
    | NoSigner | UserTwice | TooManyCopies | RoleTwice | RoleWithoutSigner | RoleNotOnTemplate | RoleWithoutField

  const MAX_CC_RECIPIENTS := 10

  predicate FieldRole(fields: seq<Field>, role: string) {
    exists i :: 0 <= i < |fields| && !fields[i].kind.Label? && fields[i].role == role
  }

  predicate TemplateRole(t: Template, role: string) {
    role in t.roles || FieldRole(t.fields, role)
  }

  predicate SignerRole(signers: seq<Signer>, role: string) {
    exists i :: 0 <= i < |signers| && !signers[i].isCc && signers[i].role == role
  }

  function Copies(signers: seq<Signer>): nat {
    if signers == [] then 0
    else Copies(signers[..|signers| - 1]) + if signers[|signers| - 1].isCc then 1 else 0
  }

  predicate UsersDistinct(signers: seq<Signer>) {
    forall i, j :: 0 <= i < j < |signers| ==> signers[i].userId != signers[j].userId
  }

  predicate RolesDistinct(signers: seq<Signer>) {
    forall i, j :: 0 <= i < j < |signers| && !signers[i].isCc && !signers[j].isCc ==>
      signers[i].role != signers[j].role
  }

  /** Every role of the template, listed or on a field, has a signer. */
  predicate RolesCovered(t: Template, signers: seq<Signer>) {
    && (forall k :: 0 <= k < |t.roles| ==> SignerRole(signers, t.roles[k]))
    && forall k :: 0 <= k < |t.fields| && !t.fields[k].kind.Label? ==> SignerRole(signers, t.fields[k].role)
  }

  predicate RolesHaveFields(t: Template, signers: seq<Signer>) {
    forall i :: 0 <= i < |signers| && !signers[i].isCc ==> FieldRole(t.fields, signers[i].role)
  }

  /** The seven checks in their order; None accepts. */
  function Mapping(t: Template, signers: seq<Signer>): Option<MappingError> {
    if forall i :: 0 <= i < |signers| ==> signers[i].isCc then Some(NoSigner)
    else if !UsersDistinct(signers) then Some(UserTwice)
    else if Copies(signers) > MAX_CC_RECIPIENTS then Some(TooManyCopies)
    else if !RolesDistinct(signers) then Some(RoleTwice)
    else if !RolesCovered(t, signers) then Some(RoleWithoutSigner)
    else if exists i :: 0 <= i < |signers| && !signers[i].isCc && !TemplateRole(t, signers[i].role) then
      Some(RoleNotOnTemplate)
    else if !RolesHaveFields(t, signers) then Some(RoleWithoutField)
    else None
  }

  /** Signer i, and nobody else, signs for this role. */
  predicate SoleSigner(signers: seq<Signer>, i: nat, role: string) {
    && i < |signers| && !signers[i].isCc && signers[i].role == role
    && forall j :: 0 <= j < |signers| && j != i ==> signers[j].isCc || signers[j].role != role
  }

  predicate HasSoleSigner(signers: seq<Signer>, role: string) {
    exists i :: 0 <= i < |signers| && SoleSigner(signers, i, role)
  }

  predicate OneSignerPerRole(t: Template, signers: seq<Signer>) {
    && (forall k :: 0 <= k < |t.fields| && !t.fields[k].kind.Label? ==> HasSoleSigner(signers, t.fields[k].role))
    && (forall k :: 0 <= k < |t.roles| ==> HasSoleSigner(signers, t.roles[k]))
    && forall i :: 0 <= i < |signers| && !signers[i].isCc ==>
         FieldRole(t.fields, signers[i].role) && SoleSigner(signers, i, signers[i].role)
  }

  /** A mapping is accepted exactly when the signers and the roles of the fields correspond one to one (and no
      role on the template is left over), nobody is listed twice, and the copies are at most ten. */
  lemma MappingAcceptsIff(t: Template, signers: seq<Signer>)
    ensures Mapping(t, signers).None? <==>
              && (exists i :: 0 <= i < |signers| && !signers[i].isCc)
              && OneSignerPerRole(t, signers) && UsersDistinct(signers)
              && |set i | 0 <= i < |signers| && signers[i].isCc| <= 10
  {
    CopiesCount(signers);
    if Mapping(t, signers).None? {
      AcceptedIsOneToOne(t, signers);
    } else if OneSignerPerRole(t, signers) {
      OneToOneIsAccepted(t, signers);
    }
  }

  lemma {:induction false} CopiesCount(signers: seq<Signer>)
    ensures Copies(signers) == |set i | 0 <= i < |signers| && signers[i].isCc|
  {
    if signers != [] {
      var n := |signers| - 1;
      var front := set i | 0 <= i < n && signers[..n][i].isCc;
      var all := set i | 0 <= i < |signers| && signers[i].isCc;
      CopiesCount(signers[..n]);
      if signers[n].isCc {
        assert all == front + {n};
      } else {
        assert all == front;
      }
    }
  }

  lemma OneToOneIsAccepted(t: Template, signers: seq<Signer>)
    requires OneSignerPerRole(t, signers)
    ensures RolesDistinct(signers) && RolesCovered(t, signers) && RolesHaveFields(t, signers)
    ensures forall i :: 0 <= i < |signers| && !signers[i].isCc ==> TemplateRole(t, signers[i].role)
  {
    OneToOneRolesDistinct(signers);
    OneToOneCovers(t, signers);
  }

  lemma AcceptedIsOneToOne(t: Template, signers: seq<Signer>)
    requires Mapping(t, signers).None?
    ensures OneSignerPerRole(t, signers)
  {
    forall k | 0 <= k < |t.fields| && !t.fields[k].kind.Label?
      ensures HasSoleSigner(signers, t.fields[k].role)
    {
      assert SignerRole(signers, t.fields[k].role);
      var i := FindSole(signers, t.fields[k].role);
    }
    forall k | 0 <= k < |t.roles|
      ensures HasSoleSigner(signers, t.roles[k])
    {
      assert SignerRole(signers, t.roles[k]);
      var i := FindSole(signers, t.roles[k]);
    }
  }

  lemma OneToOneRolesDistinct(signers: seq<Signer>)
    requires forall i :: 0 <= i < |signers| && !signers[i].isCc ==> SoleSigner(signers, i, signers[i].role)
    ensures RolesDistinct(signers)
  {
    forall i, j | 0 <= i < j < |signers| && !signers[i].isCc && !signers[j].isCc
      ensures signers[i].role != signers[j].role
    {
      assert SoleSigner(signers, i, signers[i].role);
    }
  }

  lemma OneToOneCovers(t: Template, signers: seq<Signer>)
    requires OneSignerPerRole(t, signers)
    ensures RolesCovered(t, signers)
  {
    forall k | 0 <= k < |t.roles|
      ensures SignerRole(signers, t.roles[k])
    {
      assert HasSoleSigner(signers, t.roles[k]);
    }
    forall k | 0 <= k < |t.fields| && !t.fields[k].kind.Label?
      ensures SignerRole(signers, t.fields[k].role)
    {
      assert HasSoleSigner(signers, t.fields[k].role);
    }
  }

  lemma FindSole(signers: seq<Signer>, role: string) returns (i: nat)
    requires SignerRole(signers, role) && RolesDistinct(signers)
    ensures SoleSigner(signers, i, role)
  {
    i :| i < |signers| && !signers[i].isCc && signers[i].role == role;
  }

  // ---- the submitted values ---------------------------------------------------

  datatype Entry = Entry(id: string, value: Value)

  /** What the rules look up: who drew a signature, which recipient uploaded a file, and three text formats. */
  datatype Lookup = Lookup(signatures: map<int, UserId>, uploads: map<int, nat>, isoDate: string -> bool,
                           email: string -> bool, number: string -> bool, strip: string -> string)

  datatype Person = Person(userId: UserId, submitter: nat)

  datatype ValueError = UnknownField | RequiredMissing(id: string) | BadValue(id: string)

  const MAX_TEXT_LENGTH := 500

  predicate DistinctKeys(entries: seq<Entry>) {
    forall i, j :: 0 <= i < j < |entries| ==> entries[i].id != entries[j].id
  }

  predicate Supplied(entries: seq<Entry>, id: string) {
    exists i :: 0 <= i < |entries| && entries[i].id == id
  }

  /** `fields_by_id`: of two fields with one id the later counts. */
  function ById(fields: seq<Field>, id: string): Option<Field> {
    if fields == [] then None
    else
      var last := fields[|fields| - 1];
      if last.id == id then Some(last) else ById(fields[..|fields| - 1], id)
  }

  predicate WellFormatted(format: Format, s: string, at: Lookup) {
    var stripped := at.strip(s);
    && (stripped != "" && format.Email? ==> at.email(stripped))
    && (stripped != "" && format.Number? ==> at.number(stripped))
  }

  /** May this person give this value for this field? */
  predicate Fits(field: Field, value: Value, who: Person, at: Lookup) {
    match field.kind
    case Signature | Initials =>
      value.Id? && value.n in at.signatures && at.signatures[value.n] == who.userId
    case Date => value.Text? && at.isoDate(value.s)
    case Checkbox => value.Flag?
    case TextInput => value.Text? && |value.s| <= MAX_TEXT_LENGTH && WellFormatted(field.format, value.s, at)
    case Dropdown | Radio => value.Text? && value.s in field.options
    case Upload => value.Id? && value.n in at.uploads && at.uploads[value.n] == who.submitter
    case Name | Label => value.Text? && |value.s| <= MAX_TEXT_LENGTH
  }

  /** The rule for a value, kind by kind: a mark or a file must be the person's own. */
  predicate ProperValue(field: Field, value: Value, who: Person, at: Lookup) {
    && (field.kind.Signature? || field.kind.Initials? ==>
          value.Id? && value.n in at.signatures && at.signatures[value.n] == who.userId)
    && (field.kind.Upload? ==> value.Id? && value.n in at.uploads && at.uploads[value.n] == who.submitter)
    && (field.kind.Dropdown? || field.kind.Radio? ==> value.Text? && value.s in field.options)
    && (field.kind.TextInput? ==>
          && value.Text? && |value.s| <= 500
          && (at.strip(value.s) != "" && field.format.Email? ==> at.email(at.strip(value.s)))
          && (at.strip(value.s) != "" && field.format.Number? ==> at.number(at.strip(value.s))))
    && (field.kind.Name? || field.kind.Label? ==> value.Text? && |value.s| <= 500)
    && (field.kind.Date? ==> value.Text? && at.isoDate(value.s))
    && (field.kind.Checkbox? ==> value.Flag?)
  }

  lemma FitsIffProper(field: Field, value: Value, who: Person, at: Lookup)
    ensures Fits(field, value, who, at) <==> ProperValue(field, value, who, at)
  {
  }

  /** What a submission must be like, field by field and entry by entry. */
  ghost predicate ProperSubmission(fields: seq<Field>, entries: seq<Entry>, who: Person, at: Lookup) {
    && (forall k :: 0 <= k < |fields| && fields[k].required && !fields[k].kind.Name? ==>
          Supplied(entries, fields[k].id))
    && forall e :: 0 <= e < |entries| ==> ProperEntry(fields, entries[e], who, at)
  }

  ghost predicate ProperEntry(fields: seq<Field>, entry: Entry, who: Person, at: Lookup) {
    exists k :: 0 <= k < |fields| && fields[k].id == entry.id && ProperValue(fields[k], entry.value, who, at)
  }

  lemma ProperEntryIff(fields: seq<Field>, entry: Entry, who: Person, at: Lookup)
    requires FieldIdsDistinct(fields)
    ensures EntryFits(fields, entry, who, at) <==> ProperEntry(fields, entry, who, at)
  {
    if ProperEntry(fields, entry, who, at) {
      var k :| 0 <= k < |fields| && fields[k].id == entry.id && ProperValue(fields[k], entry.value, who, at);
      ByIdIsIt(fields, k);
      FitsIffProper(fields[k], entry.value, who, at);
    }
    if EntryFits(fields, entry, who, at) {
      ByIdIsSome(fields, entry.id);
      var k :| 0 <= k < |fields| && fields[k] == ById(fields, entry.id).value;
      FitsIffProper(fields[k], entry.value, who, at);
    }
  }

  lemma {:induction false} ByIdIsSome(fields: seq<Field>, id: string)
    ensures ById(fields, id).Some? ==> ById(fields, id).value in fields && ById(fields, id).value.id == id
  {
    if fields != [] {
      ByIdIsSome(fields[..|fields| - 1], id);
    }
  }

  lemma ProperSubmissionIff(fields: seq<Field>, entries: seq<Entry>, who: Person, at: Lookup)
    requires FieldIdsDistinct(fields)
    ensures ProperSubmission(fields, entries, who, at) <==>
              AllSupplied(fields, entries) && forall e :: 0 <= e < |entries| ==> EntryFits(fields, entries[e], who, at)
  {
    forall e | 0 <= e < |entries|
      ensures EntryFits(fields, entries[e], who, at) <==> ProperEntry(fields, entries[e], who, at)
    {
      ProperEntryIff(fields, entries[e], who, at);
    }
    forall k | 0 <= k < |fields|
      ensures MustSupply(fields, fields[k].id) <==> fields[k].required && !fields[k].kind.Name?
    {
      ByIdIsIt(fields, k);
    }
  }

  predicate MustSupply(fields: seq<Field>, id: string) {
    var field := ById(fields, id);
    field.Some? && field.value.required && !field.value.kind.Name?
  }

  ghost predicate AllSupplied(fields: seq<Field>, entries: seq<Entry>) {
    forall i :: 0 <= i < |fields| && MustSupply(fields, fields[i].id) ==> Supplied(entries, fields[i].id)
  }

  predicate EntryFits(fields: seq<Field>, e: Entry, who: Person, at: Lookup) {
    var field := ById(fields, e.id);
    field.Some? && Fits(field.value, e.value, who, at)
  }

  predicate Holds(values: Values, entries: seq<Entry>) {
    && (forall i :: 0 <= i < |entries| ==> entries[i].id in values && values[entries[i].id] == entries[i].value)
    && forall id :: id in values ==> Supplied(entries, id)
  }

  /** Some submission with these values passes. */
  ghost predicate AcceptedValues(fields: seq<Field>, values: Values, who: Person, at: Lookup) {
    exists entries: seq<Entry> ::
      && DistinctKeys(entries) && AllSupplied(fields, entries) && Holds(values, entries)
      && forall k :: 0 <= k < |entries| ==> EntryFits(fields, entries[k], who, at)
  }

  /** More signatures drawn and more files uploaded, the same rules. */
  ghost predicate Grown(at: Lookup, later: Lookup) {
    && later == at.(signatures := later.signatures, uploads := later.uploads)
    && (forall n :: n in at.signatures ==> n in later.signatures && later.signatures[n] == at.signatures[n])
    && (forall n :: n in at.uploads ==> n in later.uploads && later.uploads[n] == at.uploads[n])
  }

  lemma FitLasts(fields: seq<Field>, e: Entry, who: Person, at: Lookup, later: Lookup)
    requires Grown(at, later) && EntryFits(fields, e, who, at)
    ensures EntryFits(fields, e, who, later)
  {
  }

  /** What was accepted once stays accepted. */
  lemma AcceptanceLasts(fields: seq<Field>, values: Values, who: Person, at: Lookup, later: Lookup)
    requires Grown(at, later) && AcceptedValues(fields, values, who, at)
    ensures AcceptedValues(fields, values, who, later)
  {
    var entries: seq<Entry> :|
      && DistinctKeys(entries) && AllSupplied(fields, entries) && Holds(values, entries)
      && forall k :: 0 <= k < |entries| ==> EntryFits(fields, entries[k], who, at);
    forall k | 0 <= k < |entries|
      ensures EntryFits(fields, entries[k], who, later)
    {
      FitLasts(fields, entries[k], who, at, later);
    }
  }

  method CheckValue(field: Field, value: Value, who: Person, at: Lookup) returns (ok: bool)
    ensures ok == Fits(field, value, who, at)
  {
    if field.kind.Signature? || field.kind.Initials? {
      if !value.Id? { return false; }
      return value.n in at.signatures && at.signatures[value.n] == who.userId;
    } else if field.kind.Date? {
      if !value.Text? { return false; }
      return at.isoDate(value.s);
    } else if field.kind.Checkbox? {
      return value.Flag?;
    } else if field.kind.TextInput? {
      if !value.Text? || |value.s| > MAX_TEXT_LENGTH { return false; }
      var stripped := at.strip(value.s);
      if stripped != "" && field.format.Email? && !at.email(stripped) { return false; }
      if stripped != "" && field.format.Number? && !at.number(stripped) { return false; }
      return true;
    } else if field.kind.Dropdown? || field.kind.Radio? {
      return value.Text? && value.s in field.options;
    } else if field.kind.Upload? {
      if !value.Id? { return false; }
      return value.n in at.uploads && at.uploads[value.n] == who.submitter;
    } else {
      return value.Text? && |value.s| <= MAX_TEXT_LENGTH;
    }
  }

  /** Accepted exactly when every key is a field of this signer with a fitting value and nothing required is
      missing; what is stored is then exactly what was submitted. */
  method ValidateValues(fields: seq<Field>, entries: seq<Entry>, who: Person, at: Lookup)
    returns (result: Result<Values, ValueError>)
    requires DistinctKeys(entries)
    ensures result.Ok? <==>
              AllSupplied(fields, entries) && forall i :: 0 <= i < |entries| ==> EntryFits(fields, entries[i], who, at)
    ensures FieldIdsDistinct(fields) ==> (result.Ok? <==> ProperSubmission(fields, entries, who, at))
    ensures result.Ok? ==> Holds(result.value, entries) && AcceptedValues(fields, result.value, who, at)
    ensures result == Err(UnknownField) <==> exists i :: 0 <= i < |entries| && ById(fields, entries[i].id).None?
    ensures result.Err? && result.error.RequiredMissing? ==>
              MustSupply(fields, result.error.id) && !Supplied(entries, result.error.id)
    ensures result.Err? && result.error.BadValue? ==>
              && AllSupplied(fields, entries)
              && exists i :: 0 <= i < |entries| && entries[i].id == result.error.id
                             && !EntryFits(fields, entries[i], who, at)
  {
    if FieldIdsDistinct(fields) {
      ProperSubmissionIff(fields, entries, who, at);
    }
    if exists i :: 0 <= i < |entries| && ById(fields, entries[i].id).None? {
      return Err(UnknownField);
    }
    for k := 0 to |fields|
      invariant forall i :: 0 <= i < k && MustSupply(fields, fields[i].id) ==> Supplied(entries, fields[i].id)
    {
      ByIdFinds(fields, k);
      var field := ById(fields, fields[k].id).value;
      if !field.kind.Name? && field.required && !Supplied(entries, field.id) {
        return Err(RequiredMissing(field.id));
      }
    }
    var validated: Values := map[];
    for k := 0 to |entries|
      invariant forall i :: 0 <= i < k ==> EntryFits(fields, entries[i], who, at)
      invariant Holds(validated, entries[..k])
    {
      var ok := CheckValue(ById(fields, entries[k].id).value, entries[k].value, who, at);
      if !ok {
        return Err(BadValue(entries[k].id));
      }
      HoldsOneMore(validated, entries, k);
      validated := validated[entries[k].id := entries[k].value];
    }
    assert entries[..|entries|] == entries;
    result := Ok(validated);
  }

  lemma HoldsOneMore(values: Values, entries: seq<Entry>, k: nat)
    requires DistinctKeys(entries) && k < |entries| && Holds(values, entries[..k])
    ensures Holds(values[entries[k].id := entries[k].value], entries[..k + 1])
  {
    var next, more := values[entries[k].id := entries[k].value], entries[..k + 1];
    forall id | id in next
      ensures Supplied(more, id)
    {
      if id == entries[k].id {
        assert more[k].id == id;
      } else {
        var i :| 0 <= i < k && entries[..k][i].id == id;
        assert more[i].id == id;
      }
    }
    forall i | 0 <= i < k + 1
      ensures more[i].id in next && next[more[i].id] == more[i].value
    {
      assert i < k ==> entries[..k][i] == more[i];
    }
  }

  lemma {:induction false} ByIdFinds(fields: seq<Field>, i: nat)
    requires i < |fields|
    ensures ById(fields, fields[i].id).Some? && ById(fields, fields[i].id).value.id == fields[i].id
  {
    if fields[|fields| - 1].id != fields[i].id {
      ByIdFinds(fields[..|fields| - 1], i);
    }
  }

  predicate FieldIdsDistinct(fields: seq<Field>) {
    forall i, j :: 0 <= i < j < |fields| ==> fields[i].id != fields[j].id
  }

  lemma {:induction false} ByIdIsIt(fields: seq<Field>, i: nat)
    requires i < |fields| && FieldIdsDistinct(fields)
    ensures ById(fields, fields[i].id) == Some(fields[i])
  {
    if i < |fields| - 1 {
      ByIdIsIt(fields[..|fields| - 1], i);
    }
  }

  // ---- stamping ---------------------------------------------------------------

  datatype Ink = Picture(signature: int) | Words(text: string) | Attached(upload: int) | Tick

  datatype Mark = Mark(fieldId: string, ink: Ink)

  /** What stamping is given beside fields and recipients: names, signing dates and the collected images. */
  datatype Paper = Paper(names: map<UserId, string>, dates: map<UserId, string>, images: set<int>,
                         strip: string -> string)

  function WordsIf(s: string): Option<Ink> { if s == "" then None else Some(Words(s)) }

  function NameOf(row: Row, p: Paper): string { if row.userId in p.names then p.names[row.userId] else "" }

  function DateOf(row: Row, p: Paper): string { if row.userId in p.dates then p.dates[row.userId] else "" }

  /** `_draw_field`; an empty text draws nothing. */
  function Drawing(field: Field, row: Row, p: Paper): Option<Ink> {
    var value := if field.id in row.values then row.values[field.id] else Null;
    match field.kind
    case Signature | Initials => if value.Id? && value.n in p.images then Some(Picture(value.n)) else None
    case Name =>
      if value.Text? && p.strip(value.s) != "" then Some(Words(p.strip(value.s))) else WordsIf(NameOf(row, p))
    case Date => if value.Text? && value.s != "" then Some(Words(value.s)) else WordsIf(DateOf(row, p))
    case TextInput | Dropdown | Radio => if value.Text? then WordsIf(value.s) else None
    case Upload => if value.Id? then Some(Attached(value.n)) else None
    case Checkbox => if value.Flag? && value.b then Some(Tick) else None
    case Label => None
  }

  function LastByRole(rows: seq<Row>, role: string): Option<Row> {
    if rows == [] then None
    else
      var last := rows[|rows| - 1];
      if last.role == role then Some(last) else LastByRole(rows[..|rows| - 1], role)
  }

  predicate Shown(field: Field, rows: seq<Row>) {
    field.kind.Label? || LastByRole(rows, field.role).Some?
  }

  function OnPage(fields: seq<Field>, rows: seq<Row>, page: nat): (shown: seq<Field>)
    ensures forall f :: f in shown ==> Shown(f, rows)
  {
    if fields == [] then []
    else
      var front, last := OnPage(fields[..|fields| - 1], rows, page), fields[|fields| - 1];
      if last.page == page && Shown(last, rows) then front + [last] else front
  }

  function InkFor(field: Field, rows: seq<Row>, p: Paper): Option<Ink>
    requires Shown(field, rows)
  {
    if field.kind.Label? then WordsIf(p.strip(field.default))
    else Drawing(field, LastByRole(rows, field.role).value, p)
  }

  function Marks(fields: seq<Field>, rows: seq<Row>, p: Paper): seq<Mark>
    requires forall i :: 0 <= i < |fields| ==> Shown(fields[i], rows)
  {
    if fields == [] then []
    else
      var n := |fields| - 1;
      var ink := InkFor(fields[n], rows, p);
      Marks(fields[..n], rows, p) + if ink.Some? then [Mark(fields[n].id, ink.value)] else []
  }

  function PageMarks(fields: seq<Field>, rows: seq<Row>, p: Paper, page: nat): seq<Mark> {
    Marks(OnPage(fields, rows, page), rows, p)
  }

  function Grouped(groups: map<nat, seq<Field>>, page: nat): seq<Field> {
    if page in groups then groups[page] else []
  }

  method ByRole(rows: seq<Row>) returns (byRole: map<string, Row>)
    ensures forall role :: (if role in byRole then Some(byRole[role]) else None) == LastByRole(rows, role)
  {
    byRole := map[];
    for i := 0 to |rows|
      invariant forall role :: (if role in byRole then Some(byRole[role]) else None) == LastByRole(rows[..i], role)
    {
      assert rows[..i + 1][..i] == rows[..i];
      byRole := byRole[rows[i].role := rows[i]];
    }
    assert rows[..|rows|] == rows;
  }

  method GroupByPage(fields: seq<Field>, byRole: map<string, Row>, ghost rows: seq<Row>)
    returns (groups: map<nat, seq<Field>>)
    requires forall role :: (if role in byRole then Some(byRole[role]) else None) == LastByRole(rows, role)
    ensures forall page: nat :: Grouped(groups, page) == OnPage(fields, rows, page)
  {
    groups := map[];
    for i := 0 to |fields|
      invariant forall page: nat :: Grouped(groups, page) == OnPage(fields[..i], rows, page)
    {
      var field := fields[i];
      assert fields[..i + 1][..i] == fields[..i];
      if field.kind.Label? || field.role in byRole {
        groups := groups[field.page := Grouped(groups, field.page) + [field]];
      }
    }
    assert fields[..|fields|] == fields;
  }

  method RenderOverlay(fields: seq<Field>, byRole: map<string, Row>, ghost rows: seq<Row>, p: Paper)
    returns (marks: seq<Mark>)
    requires forall role :: (if role in byRole then Some(byRole[role]) else None) == LastByRole(rows, role)
    requires forall i :: 0 <= i < |fields| ==> Shown(fields[i], rows)
    ensures marks == Marks(fields, rows, p)
  {
    marks := [];
    for i := 0 to |fields|
      invariant marks == Marks(fields[..i], rows, p)
    {
      assert fields[..i + 1][..i] == fields[..i];
      var field := fields[i];
      if field.kind.Label? {
        var text := p.strip(field.default);
        if text != "" {
          marks := marks + [Mark(field.id, Words(text))];
        }
      } else {
        assert LastByRole(rows, field.role).Some?;
        var ink := Drawing(field, byRole[field.role], p);
        if ink.Some? {
          marks := marks + [Mark(field.id, ink.value)];
        }
      }
    }
    assert fields[..|fields|] == fields;
  }

  /** The pages of the document, each with the marks of its own fields. */
  predicate IsBuilt(pages: seq<seq<Mark>>, pageCount: nat, fields: seq<Field>, rows: seq<Row>, p: Paper) {
    |pages| == pageCount && forall page :: 0 <= page < pageCount ==> pages[page] == PageMarks(fields, rows, p, page)
  }

  method BuildSignedPdf(pageCount: nat, fields: seq<Field>, rows: seq<Row>, p: Paper) returns (pages: seq<seq<Mark>>)
    ensures IsBuilt(pages, pageCount, fields, rows, p)
  {
    var byRole := ByRole(rows);
    var groups := GroupByPage(fields, byRole, rows);
    pages := [];
    for page := 0 to pageCount
      invariant |pages| == page
      invariant forall q :: 0 <= q < page ==> pages[q] == PageMarks(fields, rows, p, q)
    {
      var marks: seq<Mark> := [];
      assert Grouped(groups, page) == OnPage(fields, rows, page);
      if page in groups {
        assert forall i :: 0 <= i < |groups[page]| ==> groups[page][i] in OnPage(fields, rows, page);
        marks := RenderOverlay(groups[page], byRole, rows, p);
      }
      pages := pages + [marks];
    }
  }

  // ---- from mapping to paper --------------------------------------------------

  /** The marks with one field's id. */
  function MarksOf(marks: seq<Mark>, id: string): seq<Mark> {
    if marks == [] then []
    else
      var front, last := MarksOf(marks[..|marks| - 1], id), marks[|marks| - 1];
      if last.fieldId == id then front + [last] else front
  }

  lemma MarksOfConcat(a: seq<Mark>, m: Mark, id: string)
    ensures MarksOf(a + [m], id) == MarksOf(a, id) + if m.fieldId == id then [m] else []
  {
    assert (a + [m])[..|a|] == a;
  }

  function Once(ink: Option<Ink>, id: string): seq<Mark> {
    if ink.Some? then [Mark(id, ink.value)] else []
  }

  /** The marks with this id that one page shows of these fields. */
  function Trace(fields: seq<Field>, rows: seq<Row>, p: Paper, page: nat, id: string): seq<Mark> {
    MarksOf(PageMarks(fields, rows, p, page), id)
  }

  /** What one field adds to the trace of an id on a page. */
  function Adds(field: Field, rows: seq<Row>, p: Paper, page: nat, id: string): seq<Mark> {
    if field.page == page && field.id == id && Shown(field, rows) then Once(InkFor(field, rows, p), id) else []
  }

  lemma TraceOneMore(fields: seq<Field>, rows: seq<Row>, p: Paper, page: nat, id: string)
    requires fields != []
    ensures Trace(fields, rows, p, page, id)
              == Trace(fields[..|fields| - 1], rows, p, page, id) + Adds(fields[|fields| - 1], rows, p, page, id)
  {
    var n := |fields| - 1;
    var front := OnPage(fields[..n], rows, page);
    var marks := Marks(front, rows, p);
    if fields[n].page == page && Shown(fields[n], rows) {
      var all := front + [fields[n]];
      assert OnPage(fields, rows, page) == all && all[..|front|] == front;
      var ink := InkFor(fields[n], rows, p);
      assert Marks(all, rows, p) == marks + Once(ink, fields[n].id);
      if ink.Some? {
        MarksOfConcat(marks, Mark(fields[n].id, ink.value), id);
      } else {
        assert marks + [] == marks;
      }
    }
  }

  lemma {:induction false} OtherFieldsLeaveNoMark(fields: seq<Field>, rows: seq<Row>, p: Paper, page: nat, id: string)
    requires forall i :: 0 <= i < |fields| ==> fields[i].id != id
    ensures Trace(fields, rows, p, page, id) == []
  {
    if fields != [] {
      OtherFieldsLeaveNoMark(fields[..|fields| - 1], rows, p, page, id);
      TraceOneMore(fields, rows, p, page, id);
    }
  }

  /** With distinct ids, the marks of a shown field are its own ink, once, on its own page and on no other. */
  lemma {:induction false} FieldIsDrawnOnce(fields: seq<Field>, rows: seq<Row>, p: Paper, field: Field, page: nat)
    requires field in fields && FieldIdsDistinct(fields) && Shown(field, rows)
    ensures Trace(fields, rows, p, page, field.id)
              == if page == field.page then Once(InkFor(field, rows, p), field.id) else []
  {
    var n := |fields| - 1;
    TraceOneMore(fields, rows, p, page, field.id);
    if field == fields[n] {
      OtherFieldsLeaveNoMark(fields[..n], rows, p, page, field.id);
    } else {
      FieldIsDrawnOnce(fields[..n], rows, p, field, page);
      assert fields[n].id != field.id;
    }
  }

  function MyFields(fields: seq<Field>, role: string): seq<Field> {
    if fields == [] then []
    else
      var front, last := MyFields(fields[..|fields| - 1], role), fields[|fields| - 1];
      if last.role == role then front + [last] else front
  }

  /** A signer's fields are exactly those of their role, as often as on the template. */
  lemma {:induction false} MyFieldsAreMine(fields: seq<Field>, role: string, field: Field)
    ensures multiset(MyFields(fields, role))[field] == if field.role == role then multiset(fields)[field] else 0
  {
    if fields != [] {
      var n := |fields| - 1;
      MyFieldsAreMine(fields[..n], role, field);
      assert fields == fields[..n] + [fields[n]];
      var front := MyFields(fields[..n], role);
      assert multiset(front + [fields[n]]) == multiset(front) + multiset{fields[n]};
    }
  }

  lemma {:induction false} MyFieldsById(fields: seq<Field>, role: string, i: nat)
    requires i < |fields| && FieldIdsDistinct(fields) && fields[i].role == role
    ensures ById(MyFields(fields, role), fields[i].id) == Some(fields[i])
    ensures fields[i] in MyFields(fields, role)
  {
    var n := |fields| - 1;
    if fields[n].role == role {
      var front := MyFields(fields[..n], role);
      assert (front + [fields[n]])[..|front|] == front;
      assert fields[n] in front + [fields[n]];
    }
    if i < n {
      MyFieldsById(fields[..n], role, i);
    }
  }

  /** This row holds values that `ValidateValues` accepted for its role and its person. */
  ghost predicate Filled(row: Row, submitter: nat, fields: seq<Field>, at: Lookup) {
    AcceptedValues(MyFields(fields, row.role), row.values, Person(row.userId, submitter), at)
  }

  /** Every field lies on a page of the document. */
  predicate InRange(t: Template) {
    forall k :: 0 <= k < |t.fields| ==> t.fields[k].page < t.pageCount
  }

  /** Every signer has completed with accepted values. */
  ghost predicate AllFilled(rows: seq<Row>, fields: seq<Field>, at: Lookup) {
    forall r :: 0 <= r < |rows| && !rows[r].isCc ==> rows[r].status.Completed? && Filled(rows[r], r, fields, at)
  }

  /** The rows are those the mapping created: same roles, same copies. */
  predicate Seats(rows: seq<Row>, signers: seq<Signer>) {
    && |rows| == |signers|
    && forall i :: 0 <= i < |rows| ==> rows[i].role == signers[i].role && rows[i].isCc == signers[i].isCc
  }

  /** The rows stamping gets from the query: signers who completed. */
  function Finished(rows: seq<Row>): seq<Row> {
    if rows == [] then []
    else
      var front, last := Finished(rows[..|rows| - 1]), rows[|rows| - 1];
      if !last.isCc && last.status.Completed? then front + [last] else front
  }

  lemma {:induction false} OwnerIsFound(rows: seq<Row>, i: nat, role: string)
    requires i < |rows| && !rows[i].isCc && rows[i].status.Completed? && rows[i].role == role
    requires forall j :: 0 <= j < |rows| && j != i ==> rows[j].isCc || rows[j].role != role
    ensures LastByRole(Finished(rows), role) == Some(rows[i])
  {
    var n := |rows| - 1;
    var front := Finished(rows[..n]);
    assert (front + [rows[n]])[..|front|] == front;
    if i < n {
      OwnerIsFound(rows[..n], i, role);
    }
  }

  /** What one submitted value looks like on paper. */
  function Inked(field: Field, value: Value): Option<Ink> {
    match value
    case Id(n) => Some(if field.kind.Upload? then Attached(n) else Picture(n))
    case Text(s) => WordsIf(s)
    case Flag(b) => if b then Some(Tick) else None
    case Null => None
  }

  /** The one signer who owns field k. */
  predicate Owns(rows: seq<Row>, i: nat, field: Field) {
    && i < |rows| && !rows[i].isCc && rows[i].role == field.role
    && forall j :: 0 <= j < |rows| && j != i ==> rows[j].isCc || rows[j].role != field.role
  }

  lemma SeatOwnsField(t: Template, signers: seq<Signer>, rows: seq<Row>, k: nat) returns (i: nat)
    requires Mapping(t, signers).None? && Seats(rows, signers) && k < |t.fields| && !t.fields[k].kind.Label?
    ensures Owns(rows, i, t.fields[k])
  {
    assert SignerRole(signers, t.fields[k].role);
    i := FindSole(signers, t.fields[k].role);
  }

  /** Its owner's values have an entry for a required field, and one that fits it. */
  lemma RequiredIsFilled(fields: seq<Field>, row: Row, submitter: nat, at: Lookup, k: nat)
    requires FieldIdsDistinct(fields) && k < |fields| && fields[k].required && !fields[k].kind.Name?
    requires fields[k].role == row.role && Filled(row, submitter, fields, at)
    ensures fields[k].id in row.values
    ensures Fits(fields[k], row.values[fields[k].id], Person(row.userId, submitter), at)
  {
    var mine := MyFields(fields, row.role);
    MyFieldsById(fields, row.role, k);
    var entries: seq<Entry> :|
      && DistinctKeys(entries) && AllSupplied(mine, entries) && Holds(row.values, entries)
      && forall j :: 0 <= j < |entries| ==> EntryFits(mine, entries[j], Person(row.userId, submitter), at);
    var m :| 0 <= m < |mine| && mine[m] == fields[k];
    assert MustSupply(mine, mine[m].id);
    var e :| 0 <= e < |entries| && entries[e].id == fields[k].id;
    assert EntryFits(mine, entries[e], Person(row.userId, submitter), at);
  }

  /** Once every signer has completed with accepted values, each required field has exactly one owner, that
      owner's values have an entry for it, and the pages built show that entry once, on the field's page and on
      no other, or nothing at all exactly for an empty text or an unticked box. */
  lemma FilledFieldReachesPaper(t: Template, signers: seq<Signer>, rows: seq<Row>, at: Lookup, stored: set<int>,
                                p: Paper, pages: seq<seq<Mark>>, k: nat) returns (i: nat)
    requires Mapping(t, signers).None? && Seats(rows, signers) && FieldIdsDistinct(t.fields)
    requires AllFilled(rows, t.fields, at) && !at.isoDate("")
    requires Gathered(t.fields, Finished(rows), stored, p.images) && at.signatures.Keys <= stored
    requires IsBuilt(pages, t.pageCount, t.fields, Finished(rows), p) && InRange(t)
    requires k < |t.fields| && t.fields[k].required && !t.fields[k].kind.Label? && !t.fields[k].kind.Name?
    ensures Owns(rows, i, t.fields[k]) && t.fields[k].id in rows[i].values
    ensures var (field, value) := (t.fields[k], rows[i].values[t.fields[k].id]);
            && Fits(field, value, Person(rows[i].userId, i), at)
            && field.page < |pages|
            && (forall page :: 0 <= page < |pages| ==>
                  MarksOf(pages[page], field.id)
                    == if page == field.page then Once(Inked(field, value), field.id) else [])
            && (Inked(field, value).None? <==> value == Text("") || value == Flag(false))
  {
    var field := t.fields[k];
    i := SeatOwnsField(t, signers, rows, k);
    RequiredIsFilled(t.fields, rows[i], i, at, k);
    OwnerIsFound(rows, i, field.role);
    GatheringSuffices(t.fields, rows, i, stored, p.images, at, k);
    assert InkFor(field, Finished(rows), p) == Inked(field, rows[i].values[field.id]);
    forall page | 0 <= page < |pages|
      ensures MarksOf(pages[page], field.id)
                == if page == field.page then Once(Inked(field, rows[i].values[field.id]), field.id) else []
    {
      FieldIsDrawnOnce(t.fields, Finished(rows), p, field, page);
    }
  }

  /** The sender's own text is on its page whoever has signed. */
  lemma LabelsReachPaper(fields: seq<Field>, rows: seq<Row>, p: Paper, pages: seq<seq<Mark>>, k: nat)
    requires k < |fields| && FieldIdsDistinct(fields) && fields[k].page < |pages| && fields[k].kind.Label?
    requires IsBuilt(pages, |pages|, fields, rows, p)
    ensures var text := p.strip(fields[k].default);
            MarksOf(pages[fields[k].page], fields[k].id)
              == if text == "" then [] else [Mark(fields[k].id, Words(text))]
  {
    FieldIsDrawnOnce(fields, rows, p, fields[k], fields[k].page);
  }

  /** A field whose role has not completed shows nothing. */
  lemma UnsignedFieldsStayBlank(fields: seq<Field>, rows: seq<Row>, p: Paper, pages: seq<seq<Mark>>, k: nat)
    requires k < |fields| && FieldIdsDistinct(fields) && fields[k].page < |pages| && !fields[k].kind.Label?
    requires IsBuilt(pages, |pages|, fields, rows, p)
    requires forall i :: 0 <= i < |rows| ==> rows[i].role != fields[k].role
    ensures MarksOf(pages[fields[k].page], fields[k].id) == []
  {
    NoOwnerNotShown(rows, fields[k].role);
    UnshownLeavesNoMark(fields, rows, p, fields[k].page, fields[k]);
  }

  /** A name field shows what its signer entered, or else their account name. */
  lemma NamesReachPaper(fields: seq<Field>, rows: seq<Row>, p: Paper, pages: seq<seq<Mark>>, k: nat, i: nat)
    requires k < |fields| && FieldIdsDistinct(fields) && fields[k].page < |pages| && fields[k].kind.Name?
    requires IsBuilt(pages, |pages|, fields, rows, p)
    requires i < |rows| && rows[i].role == fields[k].role
    requires forall j :: 0 <= j < |rows| && j != i ==> rows[j].role != fields[k].role
    ensures var row := rows[i];
            var entered := if fields[k].id in row.values && row.values[fields[k].id].Text?
                           then p.strip(row.values[fields[k].id].s) else "";
            var shown := if entered != "" then entered else if row.userId in p.names then p.names[row.userId] else "";
            MarksOf(pages[fields[k].page], fields[k].id)
              == if shown == "" then [] else [Mark(fields[k].id, Words(shown))]
  {
    SoleOwnerIsFound(rows, i, fields[k].role);
    FieldIsDrawnOnce(fields, rows, p, fields[k], fields[k].page);
  }

  /** A date field shows the date its signer chose, or else the day of the signature. */
  lemma DatesReachPaper(fields: seq<Field>, rows: seq<Row>, p: Paper, pages: seq<seq<Mark>>, k: nat, i: nat)
    requires k < |fields| && FieldIdsDistinct(fields) && fields[k].page < |pages| && fields[k].kind.Date?
    requires IsBuilt(pages, |pages|, fields, rows, p)
    requires i < |rows| && rows[i].role == fields[k].role
    requires forall j :: 0 <= j < |rows| && j != i ==> rows[j].role != fields[k].role
    ensures var row := rows[i];
            var chosen := if fields[k].id in row.values && row.values[fields[k].id].Text?
                          then row.values[fields[k].id].s else "";
            var shown := if chosen != "" then chosen else if row.userId in p.dates then p.dates[row.userId] else "";
            MarksOf(pages[fields[k].page], fields[k].id)
              == if shown == "" then [] else [Mark(fields[k].id, Words(shown))]
  {
    SoleOwnerIsFound(rows, i, fields[k].role);
    FieldIsDrawnOnce(fields, rows, p, fields[k], fields[k].page);
  }

  lemma {:induction false} NoOwnerNotShown(rows: seq<Row>, role: string)
    ensures (forall i :: 0 <= i < |rows| ==> rows[i].role != role) <==> LastByRole(rows, role).None?
  {
    if rows != [] && rows[|rows| - 1].role != role {
      var n := |rows| - 1;
      NoOwnerNotShown(rows[..n], role);
      assert forall i :: 0 <= i < n ==> rows[..n][i] == rows[i];
    }
  }

  lemma {:induction false} SoleOwnerIsFound(rows: seq<Row>, i: nat, role: string)
    requires i < |rows| && rows[i].role == role
    requires forall j :: 0 <= j < |rows| && j != i ==> rows[j].role != role
    ensures LastByRole(rows, role) == Some(rows[i])
  {
    if i < |rows| - 1 {
      SoleOwnerIsFound(rows[..|rows| - 1], i, role);
    }
  }

  lemma {:induction false} UnshownLeavesNoMark(fields: seq<Field>, rows: seq<Row>, p: Paper, page: nat, field: Field)
    requires FieldIdsDistinct(fields) && field in fields && !Shown(field, rows)
    ensures Trace(fields, rows, p, page, field.id) == []
  {
    var n := |fields| - 1;
    TraceOneMore(fields, rows, p, page, field.id);
    if field == fields[n] {
      OtherFieldsLeaveNoMark(fields[..n], rows, p, page, field.id);
    } else {
      UnshownLeavesNoMark(fields[..n], rows, p, page, field);
      assert fields[n].id != field.id;
    }
  }

  // ---- the collected images ---------------------------------------------------

  predicate SignatureField(fields: seq<Field>, id: string) {
    exists k :: 0 <= k < |fields| && fields[k].id == id && (fields[k].kind.Signature? || fields[k].kind.Initials?)
  }

  /** The stored signatures named by a value of a signature field; other numbers are not looked up. */
  ghost predicate Gathered(fields: seq<Field>, rows: seq<Row>, stored: set<int>, images: set<int>) {
    forall n :: n in images <==> n in stored && exists i, id :: 0 <= i < |rows| && Names(fields, rows[i], id, n)
  }

  predicate Names(fields: seq<Field>, row: Row, id: string, n: int) {
    id in row.values && row.values[id] == Id(n) && SignatureField(fields, id)
  }

  method GatherSignatureImages(fields: seq<Field>, rows: seq<Row>, stored: set<int>) returns (images: set<int>)
    ensures Gathered(fields, rows, stored, images)
  {
    var wanted: set<int> := {};
    for i := 0 to |rows|
      invariant forall n :: n in wanted <==> exists j, id :: 0 <= j < i && Names(fields, rows[j], id, n)
    {
      var mine := set id | id in rows[i].values && SignatureField(fields, id) && rows[i].values[id].Id? ::
        rows[i].values[id].n;
      forall n
        ensures n in mine <==> exists id :: Names(fields, rows[i], id, n)
      {
        if n in mine {
          var id :| id in rows[i].values && SignatureField(fields, id) && rows[i].values[id].Id?
                    && rows[i].values[id].n == n;
          assert Names(fields, rows[i], id, n);
        }
        if id :| Names(fields, rows[i], id, n) {
          assert rows[i].values[id].n in mine;
        }
      }
      wanted := wanted + mine;
    }
    images := wanted * stored;
  }

  lemma {:induction false} FinishedHas(rows: seq<Row>, i: nat)
    requires i < |rows| && !rows[i].isCc && rows[i].status.Completed?
    ensures rows[i] in Finished(rows)
  {
    var n := |rows| - 1;
    if i < n {
      FinishedHas(rows[..n], i);
    }
    var front := Finished(rows[..n]);
    assert rows[n] in front + [rows[n]] && forall row :: row in front ==> row in front + [rows[n]];
  }

  lemma {:induction false} MyFieldsAreFields(fields: seq<Field>, role: string, id: string)
    ensures var mine := ById(MyFields(fields, role), id);
            mine.Some? ==> mine.value in fields && mine.value.id == id
  {
    if fields != [] {
      var n := |fields| - 1;
      MyFieldsAreFields(fields[..n], role, id);
      var front := MyFields(fields[..n], role);
      assert (front + [fields[n]])[..|front|] == front;
    }
  }

  /** The images gathered for stamping are all it asks for: whatever an accepted row holds for a signature field
      is a signature that was gathered, as long as accepted signatures are still stored. */
  lemma GatheringSuffices(fields: seq<Field>, rows: seq<Row>, i: nat, stored: set<int>, images: set<int>,
                          at: Lookup, k: nat)
    requires FieldIdsDistinct(fields) && i < |rows| && k < |fields| && !rows[i].isCc && rows[i].status.Completed?
    requires Filled(rows[i], i, fields, at) && fields[k].id in rows[i].values
    requires Gathered(fields, Finished(rows), stored, images) && at.signatures.Keys <= stored
    ensures fields[k].kind.Signature? || fields[k].kind.Initials? ==>
              rows[i].values[fields[k].id].Id? && rows[i].values[fields[k].id].n in images
  {
    if fields[k].kind.Signature? || fields[k].kind.Initials? {
      AcceptedEntryFits(fields, rows[i], i, at, k);
      FinishedHas(rows, i);
      assert SignatureField(fields, fields[k].id);
      GatheredHas(fields, Finished(rows), rows[i], fields[k].id, stored, images);
    }
  }

  /** Whatever an accepted row holds under a field's id fits that field. */
  lemma AcceptedEntryFits(fields: seq<Field>, row: Row, i: nat, at: Lookup, k: nat)
    requires FieldIdsDistinct(fields) && k < |fields| && Filled(row, i, fields, at) && fields[k].id in row.values
    ensures Fits(fields[k], row.values[fields[k].id], Person(row.userId, i), at)
  {
    var mine, who := MyFields(fields, row.role), Person(row.userId, i);
    var entries: seq<Entry> :|
      && DistinctKeys(entries) && AllSupplied(mine, entries) && Holds(row.values, entries)
      && forall j :: 0 <= j < |entries| ==> EntryFits(mine, entries[j], who, at);
    assert Supplied(entries, fields[k].id);
    var e :| 0 <= e < |entries| && entries[e].id == fields[k].id;
    assert EntryFits(mine, entries[e], who, at);
    MyFieldsAreFields(fields, row.role, fields[k].id);
    var field := ById(mine, fields[k].id).value;
    var j :| 0 <= j < |fields| && fields[j] == field;
    assert j == k;
  }

  lemma GatheredHas(fields: seq<Field>, rows: seq<Row>, row: Row, id: string, stored: set<int>, images: set<int>)
    requires Gathered(fields, rows, stored, images) && row in rows && SignatureField(fields, id)
    requires id in row.values && row.values[id].Id? && row.values[id].n in stored
    ensures row.values[id].n in images
  {
    var j :| 0 <= j < |rows| && rows[j] == row;
    assert Names(fields, rows[j], id, row.values[id].n);
  }
}
