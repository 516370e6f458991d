/** The form builder: the question list of a new form, its field-type table, the merge
    update behind every edit, option editing, the required flag, and the checks made
    before a form is published. */
module FormBuilder {
  import opened Text
  import opened Lists

  datatype FieldType =
    | ShortAnswer | LongAnswer | Number | MultipleChoice | Phone
    | LinkedIn | OtherLinks | Date | FileUpload

  /** A question; `caption` is its label. `options` is absent (`undefined`) except on
      multiple-choice questions. */
  datatype FormField = FormField(id: string, kind: FieldType, caption: string, required: bool,
                                 options: Option<seq<string>>)

  /** One row of the add-question menu: the type and the name shown for it. */
  datatype FieldTypeEntry = FieldTypeEntry(value: FieldType, name: string)

  const FieldTypes: seq<FieldTypeEntry> := [
    FieldTypeEntry(ShortAnswer, "Short answer"),
    FieldTypeEntry(LongAnswer, "Long answer"),
    FieldTypeEntry(Number, "Number"),
    FieldTypeEntry(MultipleChoice, "Multiple choice"),
    FieldTypeEntry(Phone, "Phone"),
    FieldTypeEntry(LinkedIn, "LinkedIn profile"),
    FieldTypeEntry(OtherLinks, "Other links"),
    FieldTypeEntry(Date, "Date"),
    FieldTypeEntry(FileUpload, "File upload")
  ]

  /** A new form starts with two required short answers, Name and Email. */
  const InitialFields: seq<FormField> := [
    FormField("1", ShortAnswer, "Name", true, None),
    FormField("2", ShortAnswer, "Email", true, None)
  ]

  const DefaultOptions: seq<string> := ["Option 1", "Option 2"]

  predicate UniqueFieldIds(fs: seq<FormField>) {
    forall i, j :: 0 <= i < j < |fs| ==> fs[i].id != fs[j].id
  }

  predicate HasFieldId(fs: seq<FormField>, id: string) {
    exists i :: 0 <= i < |fs| && fs[i].id == id
  }

  // ---------------------------------------------------------------- adding a question

  /** `table.find(e => e.value === t)`. */
  function Find(table: seq<FieldTypeEntry>, t: FieldType): Option<FieldTypeEntry> {
    if table == [] then None
    else if table[0].value == t then Some(table[0])
    else Find(table[1..], t)
  }

  /** `find` gives nothing exactly when no row is for `t`, and otherwise the first row
      for `t`. */
  lemma FindFirst(table: seq<FieldTypeEntry>, t: FieldType)
    ensures Find(table, t).None? <==> forall k :: 0 <= k < |table| ==> table[k].value != t
    ensures Find(table, t).Some? ==>
      exists k :: 0 <= k < |table| && table[k] == Find(table, t).value && table[k].value == t
                  && forall j :: 0 <= j < k ==> table[j].value != t
  {
    FindNone(table, t);
    if Find(table, t).Some? {
      var k := FindSome(table, t);
    }
  }

  lemma {:induction false} FindNone(table: seq<FieldTypeEntry>, t: FieldType)
    ensures Find(table, t).None? <==> forall k :: 0 <= k < |table| ==> table[k].value != t
  {
    if table != [] && table[0].value != t {
      FindNone(table[1..], t);
      assert forall k :: 1 <= k < |table| ==> table[k] == table[1..][k - 1];
    }
  }

  /** The row `find` returns, given by its index. */
  lemma {:induction false} FindSome(table: seq<FieldTypeEntry>, t: FieldType) returns (k: nat)
    requires Find(table, t).Some?
    ensures k < |table| && table[k] == Find(table, t).value && table[k].value == t
    ensures forall j :: 0 <= j < k ==> table[j].value != t
  {
    if table[0].value == t {
      k := 0;
    } else {
      var i := FindSome(table[1..], t);
      k := i + 1;
      assert forall j :: 1 <= j < k ==> table[j] == table[1..][j - 1];
    }
  }

  /** `table.find(e => e.value === t)?.label || 'New Field'`: the name in the first row
      for `t`, or `New Field` when there is no such row or its name is empty. */
  function LabelFrom(table: seq<FieldTypeEntry>, t: FieldType): string {
    match Find(table, t)
    case Some(e) => if e.name != [] then e.name else "New Field"
    case None => "New Field"
  }

  /** The label `addField(t)` gives a new question. */
  function FieldLabel(t: FieldType): string {
    LabelFrom(FieldTypes, t)
  }

  /** Where each type sits in the table. */
  function TypeRow(t: FieldType): nat {
    match t
    case ShortAnswer => 0
    case LongAnswer => 1
    case Number => 2
    case MultipleChoice => 3
    case Phone => 4
    case LinkedIn => 5
    case OtherLinks => 6
    case Date => 7
    case FileUpload => 8
  }

  /** In a table whose names are all real labels, a type with a row is labelled by the
      first row for it. */
  lemma LabelFromRow(table: seq<FieldTypeEntry>, t: FieldType, i: nat)
    requires i < |table| && table[i].value == t
    requires forall k :: 0 <= k < |table| ==> table[k].name != [] && table[k].name != "New Field"
    ensures exists k :: 0 <= k <= i && table[k].value == t && LabelFrom(table, t) == table[k].name
    ensures LabelFrom(table, t) != "New Field"
  {
    FindFirst(table, t);
    var r := Find(table, t);
    var k :| 0 <= k < |table| && table[k] == r.value && r.value.value == t
             && forall j :: 0 <= j < k ==> table[j].value != t;
    assert k <= i;
  }

  /** Every type has a row with a non-empty name, so the fallback is never used. */
  lemma FieldLabelsFromTable(t: FieldType)
    ensures exists k :: 0 <= k < |FieldTypes| && FieldTypes[k].value == t && FieldLabel(t) == FieldTypes[k].name
    ensures FieldLabel(t) != "New Field"
  {
    assert FieldTypes[TypeRow(t)].value == t;
    forall k | 0 <= k < |FieldTypes| ensures FieldTypes[k].name != [] && FieldTypes[k].name != "New Field" {
    }
    LabelFromRow(FieldTypes, t, TypeRow(t));
  }

  /** The question `addField(t)` appends: optional, labelled from the table, with two
      default options exactly when it is a multiple-choice question. */
  function NewField(t: FieldType, freshId: string): (f: FormField)
    ensures f.id == freshId && f.kind == t && !f.required
    ensures f.options.Some? <==> t == MultipleChoice
    ensures f.options.Some? ==> f.options.value == DefaultOptions
    ensures f.caption == FieldLabel(t) && f.caption != "New Field"
  {
    FieldLabelsFromTable(t);
    FormField(freshId, t, FieldLabel(t), false, if t == MultipleChoice then Some(DefaultOptions) else None)
  }

  // ---------------------------------------------------------------- updating and removing

  /** `Partial<FormField>`: each key is either given or absent. `options` may be given as
      `undefined`, hence the nested option. */
  datatype FieldUpdate = FieldUpdate(id: Option<string>, kind: Option<FieldType>, caption: Option<string>,
                                     required: Option<bool>, options: Option<Option<seq<string>>>)

  const NoUpdate := FieldUpdate(None, None, None, None, None)

  function LabelUpdate(text: string): FieldUpdate {
    NoUpdate.(caption := Some(text))
  }

  function RequiredUpdate(b: bool): FieldUpdate {
    NoUpdate.(required := Some(b))
  }

  function OptionsUpdate(options: seq<string>): FieldUpdate {
    NoUpdate.(options := Some(Some(options)))
  }

  function Pick<T>(given: Option<T>, current: T): T {
    if given.Some? then given.value else current
  }

  /** `{ ...f, ...u }`. */
  function Merge(f: FormField, u: FieldUpdate): FormField {
    FormField(Pick(u.id, f.id), Pick(u.kind, f.kind), Pick(u.caption, f.caption),
              Pick(u.required, f.required), Pick(u.options, f.options))
  }

  /** Merging overwrites exactly the given keys: an empty update changes nothing, and
      merging the same update twice is merging it once. */
  lemma MergeLaws(f: FormField, u: FieldUpdate)
    ensures Merge(f, NoUpdate) == f
    ensures Merge(Merge(f, u), u) == Merge(f, u)
    ensures u.id.None? && u.kind.None? && u.required.None? && u.options.None? ==>
              Merge(f, u) == f.(caption := Pick(u.caption, f.caption))
  {
  }

  /** `fields.map(f => f.id === id ? { ...f, ...u } : f)`. */
  function UpdateField(fs: seq<FormField>, id: string, u: FieldUpdate): (r: seq<FormField>)
    ensures |r| == |fs|
    ensures forall k :: 0 <= k < |fs| ==> r[k] == if fs[k].id == id then Merge(fs[k], u) else fs[k]
  {
    seq(|fs|, k requires 0 <= k < |fs| => if fs[k].id == id then Merge(fs[k], u) else fs[k])
  }

  function IdIsNot(id: string): FormField -> bool {
    (f: FormField) => f.id != id
  }

  /** `fields.filter(f => f.id !== id)`. */
  function RemoveField(fs: seq<FormField>, id: string): (r: seq<FormField>)
    ensures |r| <= |fs|
    ensures forall f :: f in r <==> f in fs && f.id != id
  {
    Filter(fs, IdIsNot(id))
  }

  /** With distinct ids, updating the id of question `k` merges into that question only. */
  lemma UpdateOneField(fs: seq<FormField>, k: nat, u: FieldUpdate)
    requires UniqueFieldIds(fs) && k < |fs|
    ensures UpdateField(fs, fs[k].id, u) == fs[k := Merge(fs[k], u)]
  {
  }

  /** An update that does not set the id keeps every id, so ids stay distinct. */
  lemma UpdateKeepsIds(fs: seq<FormField>, id: string, u: FieldUpdate)
    requires u.id.None?
    ensures forall k :: 0 <= k < |fs| ==> UpdateField(fs, id, u)[k].id == fs[k].id
    ensures UniqueFieldIds(fs) ==> UniqueFieldIds(UpdateField(fs, id, u))
  {
  }

  /** Updating or removing an id no question has changes nothing. */
  lemma UnknownFieldIdIsNoOp(fs: seq<FormField>, id: string, u: FieldUpdate)
    requires !HasFieldId(fs, id)
    ensures UpdateField(fs, id, u) == fs
    ensures RemoveField(fs, id) == fs
  {
    FilterKeepsAll(fs, IdIsNot(id));
  }

  /** With distinct ids, removing the id of question `k` removes exactly that question. */
  lemma RemoveOneField(fs: seq<FormField>, k: nat)
    requires UniqueFieldIds(fs) && k < |fs|
    ensures RemoveField(fs, fs[k].id) == fs[..k] + fs[k + 1..]
  {
    FilterRemovesOne(fs, IdIsNot(fs[k].id), k);
  }

  /** Appending a question whose id is new keeps the ids distinct. */
  lemma AddKeepsIdsUnique(fs: seq<FormField>, f: FormField)
    requires UniqueFieldIds(fs) && !HasFieldId(fs, f.id)
    ensures UniqueFieldIds(fs + [f])
  {
    var r := fs + [f];
    forall i, j | 0 <= i < j < |r| ensures r[i].id != r[j].id {
      assert r[i] == fs[i];
      if j < |fs| {
        assert r[j] == fs[j];
      }
    }
  }

  /** A question appended under a fresh id is removed again by removing that id. */
  lemma AddThenRemove(fs: seq<FormField>, t: FieldType, freshId: string)
    requires !HasFieldId(fs, freshId)
    ensures RemoveField(fs + [NewField(t, freshId)], freshId) == fs
  {
    var r := fs + [NewField(t, freshId)];
    forall j | 0 <= j < |r| && j != |fs| ensures IdIsNot(freshId)(r[j]) {
      assert r[j] == fs[j];
    }
    FilterRemovesOne(r, IdIsNot(freshId), |fs|);
    assert r[..|fs|] == fs && r[|fs| + 1..] == [];
  }

  /** Removing an optional question keeps the ids distinct and every required question. */
  lemma RemoveAtKeeps(fs: seq<FormField>, k: nat)
    requires UniqueFieldIds(fs) && k < |fs| && !fs[k].required
    ensures UniqueFieldIds(fs[..k] + fs[k + 1..])
    ensures forall f :: f in fs && f.required ==> f in fs[..k] + fs[k + 1..]
  {
    var r := fs[..k] + fs[k + 1..];
    forall f | f in fs && f.required ensures f in r {
      var j :| 0 <= j < |fs| && fs[j] == f;
      if j < k {
        assert r[j] == f;
      } else {
        assert r[j - 1] == f;
      }
    }
    forall i, j | 0 <= i < j < |r| ensures r[i].id != r[j].id {
      var i' := if i < k then i else i + 1;
      var j' := if j < k then j else j + 1;
      assert r[i] == fs[i'] && r[j] == fs[j'];
    }
  }

  // ---------------------------------------------------------------- options

  /** "Add option": the list, or an empty one when absent, with `Option n` appended, where
      `n` is one more than the number of options before. */
  function WithAddedOption(options: Option<seq<string>>): (r: seq<string>)
    ensures var before := if options.Some? then options.value else [];
            |r| == |before| + 1 && r[..|before|] == before
            && r[|before|] == "Option " + NatToString(|before| + 1)
  {
    var before := if options.Some? then options.value else [];
    before + ["Option " + NatToString(|before| + 1)]
  }

  /** A fresh multiple-choice question offers `Option 3` next; a list with no options
      starts at `Option 1`. */
  lemma AddedOptionNumbers()
    ensures WithAddedOption(Some(DefaultOptions)) == ["Option 1", "Option 2", "Option 3"]
    ensures WithAddedOption(None) == ["Option 1"]
  {
    assert NatToString(3) == "3" && NatToString(1) == "1";
    assert "Option " + "3" == "Option 3" && "Option " + "1" == "Option 1";
    assert DefaultOptions + ["Option 3"] == ["Option 1", "Option 2", "Option 3"];
    assert [] + ["Option 1"] == ["Option 1"];
  }

  // ---------------------------------------------------------------- publishing

  datatype PublishOutcome =
    | TitleMissing
    | NoFields
    | Submit(title: string, description: string, fields: seq<FormField>, status: string)

  /** `handlePublish` up to the request: the title is checked first, then the list. */
  function Publish(title: string, description: string, fs: seq<FormField>): (r: PublishOutcome)
    ensures r == TitleMissing <==> IsBlank(title)
    ensures r == NoFields <==> !IsBlank(title) && fs == []
    ensures r.Submit? <==> !IsBlank(title) && fs != []
    ensures r.Submit? ==> r == Submit(title, description, fs, "active")
  {
    if Trim(title) == [] then TitleMissing
    else if |fs| == 0 then NoFields
    else Submit(title, description, fs, "active")
  }

  /** The toast shown when publishing is refused. */
  function ErrorMessage(r: PublishOutcome): (m: Option<string>)
    ensures m.Some? <==> !r.Submit?
  {
    match r
    case TitleMissing => Some("Please enter a form title")
    case NoFields => Some("Please add at least one field")
    case Submit(_, _, _, _) => None
  }

  /** A blank title is reported even when there are no questions; the title is sent as
      typed, untrimmed. */
  lemma PublishExamples(description: string)
    ensures ErrorMessage(Publish(" \t", description, [])) == Some("Please enter a form title")
    ensures ErrorMessage(Publish("Hi", description, [])) == Some("Please add at least one field")
    ensures Publish(" Hi ", description, InitialFields) == Submit(" Hi ", description, InitialFields, "active")
  {
    assert !IsBlank("Hi") by {
      assert !IsWhitespace("Hi"[0]);
    }
    assert !IsBlank(" Hi ") by {
      assert !IsWhitespace(" Hi "[1]);
    }
    assert IsBlank(" \t");
  }

  // ---------------------------------------------------------------- the page

  class FormEditor {
    var formTitle: string
    var formDescription: string
    var fields: seq<FormField>
    var showFieldMenu: bool

    predicate Valid()
      reads this
    {
      UniqueFieldIds(fields)
    }

    constructor ()
      ensures Valid()
      ensures formTitle == [] && formDescription == [] && fields == InitialFields && !showFieldMenu
    {
      formTitle := [];
      formDescription := [];
      fields := InitialFields;
      showFieldMenu := false;
    }

    method SetTitle(text: string)
      requires Valid()
      modifies this
      ensures Valid()
      ensures formTitle == text
      ensures formDescription == old(formDescription) && fields == old(fields) && showFieldMenu == old(showFieldMenu)
    {
      formTitle := text;
    }

    method SetDescription(text: string)
      requires Valid()
      modifies this
      ensures Valid()
      ensures formDescription == text
      ensures formTitle == old(formTitle) && fields == old(fields) && showFieldMenu == old(showFieldMenu)
    {
      formDescription := text;
    }

    /** "Add new question" opens or closes the type menu. */
    method ToggleFieldMenu()
      requires Valid()
      modifies this
      ensures Valid()
      ensures showFieldMenu == !old(showFieldMenu)
      ensures formTitle == old(formTitle) && formDescription == old(formDescription) && fields == old(fields)
    {
      showFieldMenu := !showFieldMenu;
    }

    /** `addField(t)`: the new question goes last and the menu closes. */
    method AddField(t: FieldType, freshId: string)
      requires Valid() && !HasFieldId(fields, freshId)
      modifies this
      ensures Valid()
      ensures fields == old(fields) + [NewField(t, freshId)] && !showFieldMenu
      ensures formTitle == old(formTitle) && formDescription == old(formDescription)
    {
      var f := NewField(t, freshId);
      AddKeepsIdsUnique(fields, f);
      fields := fields + [f];
      showFieldMenu := false;
      assert Valid();
    }

    /** Typing in the label of question `k`. */
    method EditLabel(k: nat, text: string)
      requires Valid() && k < |fields|
      modifies this
      ensures Valid()
      ensures fields == old(fields)[k := old(fields)[k].(caption := text)]
      ensures formTitle == old(formTitle) && formDescription == old(formDescription) && showFieldMenu == old(showFieldMenu)
    {
      UpdateOneField(fields, k, LabelUpdate(text));
      UpdateKeepsIds(fields, fields[k].id, LabelUpdate(text));
      fields := UpdateField(fields, fields[k].id, LabelUpdate(text));
    }

    /** Typing in option `i` of question `k`: the options are copied into a fresh array,
        index `i` of the copy is assigned, and the copy is merged into the question. */
    method EditOption(k: nat, i: nat, text: string)
      requires Valid() && k < |fields| && fields[k].options.Some? && i < |fields[k].options.value|
      modifies this
      ensures Valid()
      ensures fields == old(fields)[k := old(fields)[k].(options := Some(old(fields)[k].options.value[i := text]))]
      ensures formTitle == old(formTitle) && formDescription == old(formDescription) && showFieldMenu == old(showFieldMenu)
    {
      var options := fields[k].options.value;
      var copy := new string[|options|](j => if 0 <= j < |options| then options[j] else []);
      copy[i] := text;
      var newOptions := copy[..];
      assert newOptions == options[i := text];
      UpdateOneField(fields, k, OptionsUpdate(newOptions));
      UpdateKeepsIds(fields, fields[k].id, OptionsUpdate(newOptions));
      fields := UpdateField(fields, fields[k].id, OptionsUpdate(newOptions));
    }

    /** "Add option" on question `k`. */
    method AddOption(k: nat)
      requires Valid() && k < |fields|
      modifies this
      ensures Valid()
      ensures fields == old(fields)[k := old(fields)[k].(options := Some(WithAddedOption(old(fields)[k].options)))]
      ensures formTitle == old(formTitle) && formDescription == old(formDescription) && showFieldMenu == old(showFieldMenu)
    {
      var newOptions := WithAddedOption(fields[k].options);
      UpdateOneField(fields, k, OptionsUpdate(newOptions));
      UpdateKeepsIds(fields, fields[k].id, OptionsUpdate(newOptions));
      fields := UpdateField(fields, fields[k].id, OptionsUpdate(newOptions));
    }

    /** The check button of question `k` flips its required flag. */
    method ToggleRequired(k: nat)
      requires Valid() && k < |fields|
      modifies this
      ensures Valid()
      ensures fields == old(fields)[k := old(fields)[k].(required := !old(fields)[k].required)]
      ensures formTitle == old(formTitle) && formDescription == old(formDescription) && showFieldMenu == old(showFieldMenu)
    {
      var u := RequiredUpdate(!fields[k].required);
      UpdateOneField(fields, k, u);
      UpdateKeepsIds(fields, fields[k].id, u);
      fields := UpdateField(fields, fields[k].id, u);
    }

    /** The remove button, shown only on optional questions: question `k` goes, the others
        stay in order, and every required question is kept. */
    method RemoveAt(k: nat)
      requires Valid() && k < |fields| && !fields[k].required
      modifies this
      ensures Valid()
      ensures fields == old(fields)[..k] + old(fields)[k + 1..]
      ensures forall f :: f in old(fields) && f.required ==> f in fields
      ensures formTitle == old(formTitle) && formDescription == old(formDescription) && showFieldMenu == old(showFieldMenu)
    {
      RemoveOneField(fields, k);
      RemoveAtKeeps(fields, k);
      fields := RemoveField(fields, fields[k].id);
    }

    /** "Publish": the outcome of the checks; nothing on the page changes. */
    method HandlePublish() returns (r: PublishOutcome)
      requires Valid()
      ensures r == Publish(formTitle, formDescription, fields)
      ensures r == TitleMissing <==> IsBlank(formTitle)
      ensures r == NoFields <==> !IsBlank(formTitle) && fields == []
    {
      if Trim(formTitle) == [] {
        return TitleMissing;
      }
      if |fields| == 0 {
        return NoFields;
      }
      r := Submit(formTitle, formDescription, fields, "active");
    }
  }
}
