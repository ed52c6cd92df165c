/** The add/edit item form (src/components/AddEditItemForm.tsx): its field state, the four
    validation rules and the error map they build, the submit gate, the per-field update that
    clears only that field's error, and the coercion of the quantity input. */
module ItemForm {
  import opened Wrappers
  import opened JsString
  import opened Inventory

  /** The options of the category select. */
  const CategoryOptions: seq<string> := [
    "Electronics", "Food", "Clothing", "Books", "Tools",
    "Furniture", "Sports", "Kitchen", "Office", "Other"]

  /** The keys of `formData` (and of `errors`). */
  datatype Field = Name | Quantity | Category | Location | Description

  const NameRequired := "Item name is required"
  const QuantityTooSmall := "Quantity must be at least 1"
  const CategoryRequired := "Category is required"
  const LocationRequired := "Location is required"

  /** The form's state before any input: the `useState` initial value. */
  const EmptyDraft := Draft("", 1, "", "", "")

  /** The form data once the `initialData` effect has run. */
  function InitialFormData(initialData: Option<Item>): Draft {
    match initialData
    case Some(item) => DraftOf(item)
    case None => EmptyDraft
  }

  // ---------------------------------------------------------------------------------------
  // Validation (`validateForm`)

  /** The error map `validateForm` builds: one entry per failed rule, in rule order. */
  function ValidationErrors(d: Draft): (errs: map<Field, string>)
    ensures Name in errs <==> Trim(d.name) == []
    ensures Quantity in errs <==> d.quantity < 1
    ensures Category in errs <==> d.category == []
    ensures Location in errs <==> Trim(d.location) == []
    ensures Description !in errs
    ensures Name in errs ==> errs[Name] == NameRequired
    ensures Quantity in errs ==> errs[Quantity] == QuantityTooSmall
    ensures Category in errs ==> errs[Category] == CategoryRequired
    ensures Location in errs ==> errs[Location] == LocationRequired
  {
    var e0: map<Field, string> := map[];
    var e1 := if Trim(d.name) == [] then e0[Name := NameRequired] else e0;
    var e2 := if d.quantity < 1 then e1[Quantity := QuantityTooSmall] else e1;
    var e3 := if d.category == [] then e2[Category := CategoryRequired] else e2;
    if Trim(d.location) == [] then e3[Location := LocationRequired] else e3
  }

  /** The error map is empty exactly for the drafts that satisfy the four rules. */
  lemma ValidationAcceptsExactlyValidDrafts(d: Draft)
    ensures ValidationErrors(d) == map[] <==> DraftValid(d)
  {
    var errs := ValidationErrors(d);
    if !DraftValid(d) {
      assert Name in errs || Quantity in errs || Category in errs || Location in errs;
    }
  }

  /** A draft with empty text fields and a positive quantity fails exactly the three text
      rules. */
  lemma BlankTextErrors(d: Draft)
    requires d.name == [] && d.quantity >= 1 && d.category == [] && d.location == []
    ensures ValidationErrors(d).Keys == {Name, Category, Location}
  {
    var errs := ValidationErrors(d);
    assert Name in errs && Category in errs && Location in errs;
    assert Quantity !in errs && Description !in errs;
    forall f | f in errs ensures f in {Name, Category, Location} {
      assert f != Quantity && f != Description;
    }
  }

  /** The form loaded from a well-formed item has no validation error; the empty form fails
      exactly the name, category and location rules. */
  lemma InitialFormDataSpec(item: Item)
    ensures WellFormed(item) ==> ValidationErrors(InitialFormData(Some(item))) == map[]
    ensures ValidationErrors(InitialFormData(None)).Keys == {Name, Category, Location}
  {
    if WellFormed(item) {
      var loaded := InitialFormData(Some(item));
      assert loaded == DraftOf(item);
      ValidationAcceptsExactlyValidDrafts(loaded);
    }
    var blank := InitialFormData(None);
    assert blank.name == [] && blank.quantity == 1 && blank.category == [] && blank.location == [];
    BlankTextErrors(blank);
  }

  // ---------------------------------------------------------------------------------------
  // Per-field update (`handleInputChange`)

  /** A call `handleInputChange(field, value)` with the value the field's widget supplies. */
  datatype FieldEdit =
    | SetName(name: string)
    | SetQuantity(quantity: int)
    | SetCategory(category: string)
    | SetLocation(location: string)
    | SetDescription(description: string)

  function FieldOf(e: FieldEdit): Field {
    match e
    case SetName(_) => Name
    case SetQuantity(_) => Quantity
    case SetCategory(_) => Category
    case SetLocation(_) => Location
    case SetDescription(_) => Description
  }

  /** The current value of field `f`, as the edit that would set it. */
  function FieldValue(d: Draft, f: Field): (e: FieldEdit)
    ensures FieldOf(e) == f
  {
    match f
    case Name => SetName(d.name)
    case Quantity => SetQuantity(d.quantity)
    case Category => SetCategory(d.category)
    case Location => SetLocation(d.location)
    case Description => SetDescription(d.description)
  }

  /** `{ ...prev, [field]: value }`: the edited field takes the value, every other field keeps
      its own. */
  function ApplyFieldEdit(d: Draft, e: FieldEdit): (r: Draft)
    ensures FieldValue(r, FieldOf(e)) == e
    ensures forall f :: f != FieldOf(e) ==> FieldValue(r, f) == FieldValue(d, f)
  {
    match e
    case SetName(v) => d.(name := v)
    case SetQuantity(v) => d.(quantity := v)
    case SetCategory(v) => d.(category := v)
    case SetLocation(v) => d.(location := v)
    case SetDescription(v) => d.(description := v)
  }

  /** `errors[field]` is truthy: present and non-empty. */
  predicate HasError(errs: map<Field, string>, f: Field) {
    f in errs && errs[f] != []
  }

  /** `if (errors[field]) setErrors({ ...prev, [field]: '' })`: the field's message becomes
      empty (the key stays), every other entry is kept. */
  function ClearError(errs: map<Field, string>, f: Field): (r: map<Field, string>)
    ensures r.Keys == errs.Keys
    ensures !HasError(r, f) && (f in r ==> r[f] == [])
    ensures forall g :: g in errs && g != f ==> r[g] == errs[g]
  {
    if HasError(errs, f) then errs[f := []] else errs
  }

  /** Clearing an error twice is clearing it once. */
  lemma ClearErrorIdempotent(errs: map<Field, string>, f: Field)
    ensures ClearError(ClearError(errs, f), f) == ClearError(errs, f)
  {
  }

  // ---------------------------------------------------------------------------------------
  // Quantity input (`parseInt(e.target.value) || 1`)

  /** `parsed || 1`: `NaN` and zero are falsy and become 1; every other integer, negative
      ones included, passes through. */
  function CoerceQuantity(parsed: Option<int>): (q: int)
    ensures q != 0
    ensures parsed.Some? && parsed.value != 0 ==> q == parsed.value
    ensures parsed.None? || parsed.value == 0 ==> q == 1
  {
    match parsed
    case Some(v) => if v != 0 then v else 1
    case None => 1
  }

  /** The quantity the input's `onChange` stores for the raw input text. */
  function QuantityInput(raw: string): int {
    CoerceQuantity(ParseInt(raw))
  }

  /** Typing the decimal form of a non-zero integer stores that integer; typing 0 stores 1. */
  lemma QuantityInputRoundTrip(n: int)
    ensures QuantityInput(IntToString(n)) == if n == 0 then 1 else n
  {
    ParseIntRoundTrip(n);
  }

  /** A cleared input stores 1. */
  lemma QuantityInputEmpty()
    ensures QuantityInput("") == 1
  {
  }

  /** After a quantity input, validation flags the quantity exactly when the input parsed to
      a negative integer: coercion rules out 0 and `NaN`, not negatives. */
  lemma QuantityInputRejectedIffNegative(d: Draft, raw: string)
    ensures var errs := ValidationErrors(ApplyFieldEdit(d, SetQuantity(QuantityInput(raw))));
      Quantity in errs <==> ParseInt(raw).Some? && ParseInt(raw).value < 0
  {
    var r := ApplyFieldEdit(d, SetQuantity(QuantityInput(raw)));
    assert FieldValue(r, Quantity) == SetQuantity(QuantityInput(raw));
  }

  // ---------------------------------------------------------------------------------------
  // The category options and the colour badges

  /** Every option passes the category rule and is no `Object.prototype` member, so on the
      categories the form can produce the colour lookup as written and the intended colour
      agree; the first five options have their own colour and the other five are gray. */
  lemma CategoryOptionsColors()
    ensures forall i :: 0 <= i < |CategoryOptions| ==>
      && CategoryOptions[i] != []
      && CategoryColorAsWritten(CategoryOptions[i]) == ClassName(CategoryColor(CategoryOptions[i]))
      && (CategoryColor(CategoryOptions[i]) != GrayClass <==> i < 5)
  {
    assert forall i :: 0 <= i < |CategoryOptions| ==> CategoryOptions[i] !in ObjectPrototypeKeys;
    assert forall i :: 0 <= i < 5 ==> CategoryOptions[i] in ColorTable;
    assert forall i :: 5 <= i < |CategoryOptions| ==> CategoryOptions[i] !in ColorTable;
  }

  // ---------------------------------------------------------------------------------------
  // The form's state

  /** The state of `AddEditItemForm`: `formData` and `errors`. */
  class ItemFormState {
    var formData: Draft
    var errors: map<Field, string>

    /** Mounting the form: the initial state, then the `initialData` effect. */
    constructor (initialData: Option<Item>)
      ensures formData == InitialFormData(initialData)
      ensures errors == map[]
    {
      formData := InitialFormData(initialData);
      errors := map[];
    }

    /** The `initialData` effect when its dependency changes: an item loads its five draft
        fields, no item leaves the form as it is. */
    method LoadInitialData(initialData: Option<Item>)
      modifies this`formData
      ensures formData == if initialData.Some? then DraftOf(initialData.value) else old(formData)
    {
      if initialData.Some? {
        var item := initialData.value;
        formData := Draft(item.name, item.quantity, item.category, item.location, item.description);
      }
    }

    /** `validateForm`: builds the error map rule by rule, stores it, and reports whether it
        has no keys. */
    method ValidateForm() returns (valid: bool)
      modifies this`errors
      ensures errors == ValidationErrors(formData)
      ensures valid <==> errors == map[]
      ensures valid <==> DraftValid(formData)
    {
      var newErrors: map<Field, string> := map[];
      if Trim(formData.name) == [] {
        newErrors := newErrors[Name := NameRequired];
      }
      if formData.quantity < 1 {
        newErrors := newErrors[Quantity := QuantityTooSmall];
      }
      if formData.category == [] {
        newErrors := newErrors[Category := CategoryRequired];
      }
      if Trim(formData.location) == [] {
        newErrors := newErrors[Location := LocationRequired];
      }
      errors := newErrors;
      valid := |newErrors.Keys| == 0;
      ValidationAcceptsExactlyValidDrafts(formData);
    }

    /** `handleSubmit`: the draft handed to `onSubmit`, if validation passes. */
    method HandleSubmit() returns (submitted: Option<Draft>)
      modifies this`errors
      ensures errors == ValidationErrors(formData)
      ensures submitted == if DraftValid(formData) then Some(formData) else None
      ensures submitted.Some? ==> DraftValid(submitted.value)
    {
      var valid := ValidateForm();
      if valid {
        submitted := Some(formData);
      } else {
        submitted := None;
      }
    }

    /** `handleInputChange`: sets one field and clears only that field's error. */
    method HandleInputChange(e: FieldEdit)
      modifies this
      ensures formData == ApplyFieldEdit(old(formData), e)
      ensures errors == ClearError(old(errors), FieldOf(e))
    {
      formData := ApplyFieldEdit(formData, e);
      if HasError(errors, FieldOf(e)) {
        errors := errors[FieldOf(e) := []];
      }
    }

    /** The quantity input's `onChange`. */
    method HandleQuantityInput(raw: string)
      modifies this
      ensures formData == old(formData).(quantity := QuantityInput(raw))
      ensures errors == ClearError(old(errors), Quantity)
    {
      HandleInputChange(SetQuantity(QuantityInput(raw)));
    }
  }

  /** A draft the form submits keeps the store valid when it is added with a fresh id and
      clock readings that do not run backwards. */
  lemma SubmittedDraftKeepsStoreValid(items: seq<Item>, d: Draft, idTime: int, createdTime: int, updatedTime: int)
    requires AllWellFormed(items) && IdsUnique(items)
    requires ValidationErrors(d) == map[]
    requires createdTime <= updatedTime && !HasId(items, IntToString(idTime))
    ensures var r := WithAdded(items, d, idTime, createdTime, updatedTime);
      AllWellFormed(r) && IdsUnique(r) && TotalQuantity(r) > TotalQuantity(items)
  {
    ValidationAcceptsExactlyValidDrafts(d);
    AddPreservesWellFormed(items, d, idTime, createdTime, updatedTime);
    AddKeepsIdsUnique(items, d, idTime, createdTime, updatedTime);
    AddTotalQuantity(items, d, idTime, createdTime, updatedTime);
  }
}
