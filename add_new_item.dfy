/**
 * The add-item form: its fields, when Add is enabled, the item it submits,
 * the expiration-date picker and the duplicate-name warning dialog, which
 * hands Proceed and Cancel to the inventory view-model.
 */
module NewItem {
  import opened Common
  import opened Items
  import opened Repository
  import opened Inventory

  const FREEZER := "Freezer"
  const PANTRY := "Pantry"
  const FRIDGE := "Fridge"

  /** The three location buttons. */
  datatype LocationChoice = Freezer | Pantry | Fridge

  function LocationName(c: LocationChoice): (s: string)
    ensures s in {FREEZER, PANTRY, FRIDGE}
  {
    match c
    case Freezer => FREEZER
    case Pantry => PANTRY
    case Fridge => FRIDGE
  }

  /** The buttons name three different locations. */
  lemma LocationNamesDistinct(a: LocationChoice, b: LocationChoice)
    ensures LocationName(a) == LocationName(b) ==> a == b
  {
  }

  /** The Add button is enabled only when name, quantity text and expiration date are all non-blank. */
  predicate AddEnabled(name: string, quantity: string, expirationDate: string)
    ensures AddEnabled(name, quantity, expirationDate) ==> name != "" && quantity != "" && expirationDate != ""
    ensures !IsBlank(name) && quantity != "" && AllDigits(quantity) && !IsBlank(expirationDate) ==>
              AddEnabled(name, quantity, expirationDate)
  {
    assert quantity != "" && AllDigits(quantity) ==> IsDigit(quantity[0]);
    !IsBlank(name) && !IsBlank(quantity) && !IsBlank(expirationDate)
  }

  /**
   * The item the Add button submits: the name, location and date as typed,
   * the quantity text read as an Int or 0, the default empty id and no image URL.
   */
  function SubmittedItem(name: string, location: string, quantity: string, expirationDate: string): (item: InventoryItem)
    ensures item.id == "" && item.imageUrl.None?
    ensures item.name == name && item.location == location && item.expirationDate == expirationDate
    ensures INT_MIN <= item.quantity <= INT_MAX
  {
    InventoryItem("", name, location, ToIntOrNull(quantity).GetOr(0), expirationDate, None)
  }

  /** Typing any Int, negative ones included, submits exactly that quantity. */
  lemma SubmittedQuantityOfNumber(name: string, location: string, n: int, expirationDate: string)
    requires INT_MIN <= n <= INT_MAX
    ensures SubmittedItem(name, location, IntToString(n), expirationDate).quantity == n
  {
    ToIntOrNullRoundTrip(n);
  }

  /** Text that is not an Int (letters, a lone sign, a value beyond 32 bits) submits 0. */
  lemma SubmittedQuantityOfText(name: string, location: string, quantity: string, expirationDate: string)
    requires ToIntOrNull(quantity).None?
    ensures SubmittedItem(name, location, quantity, expirationDate).quantity == 0
  {
  }

  /** Two concrete readings of the quantity text. */
  lemma QuantityExamples()
    ensures ToIntOrNull("12") == Some(12)
    ensures ToIntOrNull("-3") == Some(-3)
  {
    assert "12"[..1] == "1" && "1"[..0] == "";
    assert DigitsValue("1") == 1;
    assert DigitsValue("12") == 12;
    assert "-3"[1..] == "3";
  }

  /** The first seven digits of one past Int.MAX_VALUE. */
  lemma LeadingDigitsBeyondInt()
    ensures DigitsValue("2147483") == 2147483
  {
    assert "2"[..0] == "";
    assert DigitsValue("2") == 2;
    assert "21"[..1] == "2";
    assert DigitsValue("21") == 21;
    assert "214"[..2] == "21";
    assert DigitsValue("214") == 214;
    assert "2147"[..3] == "214";
    assert DigitsValue("2147") == 2147;
    assert "21474"[..4] == "2147";
    assert DigitsValue("21474") == 21474;
    assert "214748"[..5] == "21474";
    assert DigitsValue("214748") == 214748;
    assert "2147483"[..6] == "214748";
  }

  /** One past Int.MAX_VALUE does not read: the quantity field then submits 0. */
  lemma QuantityBeyondInt()
    ensures ToIntOrNull("2147483648") == None
  {
    LeadingDigitsBeyondInt();
    assert "21474836"[..7] == "2147483";
    assert DigitsValue("21474836") == 21474836;
    assert "214748364"[..8] == "21474836";
    assert DigitsValue("214748364") == 214748364;
    assert "2147483648"[..9] == "214748364";
    assert DigitsValue("2147483648") == 2147483648;
  }

  /** isSelectableDate: only instants at or after the current time can be picked. */
  predicate IsSelectableDate(utcMillis: int, nowMillis: int) {
    utcMillis >= nowMillis
  }

  /** The text of the warning dialog's name slot: the held duplicate's name, or "". */
  function WarningItemName(duplicate: Option<InventoryItem>): (name: string)
    ensures duplicate.None? ==> name == ""
    ensures duplicate.Some? ==> name == duplicate.value.name
  {
    match duplicate
    case None => ""
    case Some(item) => item.name
  }

  /** The screen's state and the view-model it drives. */
  class AddItemForm {
    var name: string
    var location: string
    var quantity: string
    /** The picked image, if any. */
    var imageUri: Option<string>
    var expirationDate: string
    const viewModel: InventoryViewModel

    ghost predicate Valid()
      reads this
    {
      location in {FREEZER, PANTRY, FRIDGE}
    }

    /** A fresh form; `defaultDate` is today plus seven days, formatted yyyy-MM-dd. */
    constructor (viewModel: InventoryViewModel, defaultDate: string)
      ensures Valid() && this.viewModel == viewModel
      ensures name == "" && location == FRIDGE && quantity == "" && imageUri.None?
      ensures expirationDate == defaultDate
    {
      this.viewModel := viewModel;
      name := "";
      location := FRIDGE;
      quantity := "";
      imageUri := None;
      expirationDate := defaultDate;
    }

    method OnNameChanged(text: string)
      modifies this`name
      ensures name == text
    {
      name := text;
    }

    method OnQuantityChanged(text: string)
      modifies this`quantity
      ensures quantity == text
    {
      quantity := text;
    }

    /** A location button: the location is only ever one of the three names. */
    method OnLocationSelected(choice: LocationChoice)
      modifies this`location
      ensures Valid() && location == LocationName(choice)
    {
      location := LocationName(choice);
    }

    /** The gallery result: a null result keeps the previous image. */
    method OnImagePicked(uri: Option<string>)
      modifies this`imageUri
      ensures imageUri == if uri.Some? then uri else old(imageUri)
    {
      if uri.Some? {
        imageUri := uri;
      }
    }

    /**
     * The picker's OK button: the selected instant, which the picker only
     * lets be a selectable date, formatted by `formatDate` (convertMillisToDate),
     * or "" when nothing is selected; that empty date disables Add.
     */
    method OnDateConfirmed(selectedMillis: Option<int>, nowMillis: int, formatDate: int -> string)
      requires selectedMillis.Some? ==> IsSelectableDate(selectedMillis.value, nowMillis)
      modifies this`expirationDate
      ensures expirationDate == if selectedMillis.Some? then formatDate(selectedMillis.value) else ""
      ensures selectedMillis.None? ==> !AddEnabled(name, quantity, expirationDate)
    {
      expirationDate := if selectedMillis.Some? then formatDate(selectedMillis.value) else "";
    }

    /**
     * The Add button: submits the item built from the fields, with the
     * picked image uploaded by the repository.
     */
    method OnAddClicked(upload: Result<string>, nowMillis: int, existing: Outcome, write: Outcome)
      returns (onSuccess: bool, ghost newId: string)
      requires AddEnabled(name, quantity, expirationDate)
      requires viewModel.Valid()
      modifies viewModel, viewModel.repository
      ensures viewModel.Valid()
      ensures var item := SubmittedItem(name, location, quantity, expirationDate);
              var image := if imageUri.Some? then Some(ImageUpload(imageUri.value, upload)) else None;
              var user := viewModel.repository.currentUser;
              && user == old(viewModel.repository.currentUser)
              && (user.None? || existing.Failed? ==> !onSuccess && viewModel.repository.store == old(viewModel.repository.store))
              && (user.Some? && existing.Ok? && HasStoredName(Docs(old(viewModel.repository.store), user.value), name) ==>
                    !onSuccess && viewModel.showWarningModal && viewModel.duplicateItem == Some(item))
              && (user.Some? && existing.Ok? && !HasStoredName(Docs(old(viewModel.repository.store), user.value), name) ==>
                    var st := AddStep(old(viewModel.repository.store), user, item, image, write, newId);
                    viewModel.repository.store == st.store && (onSuccess <==> st.outcome.Ok?))
    {
      var item := SubmittedItem(name, location, quantity, expirationDate);
      var image := if imageUri.Some? then Some(ImageUpload(imageUri.value, upload)) else None;
      onSuccess, newId := viewModel.AddInventoryItem(item, image, nowMillis, existing, write);
    }

    /** The name the warning dialog shows. */
    function WarningText(): (text: string)
      reads this, viewModel
      ensures viewModel.duplicateItem.Some? ==> text == viewModel.duplicateItem.value.name
      ensures viewModel.duplicateItem.None? ==> text == ""
    {
      WarningItemName(viewModel.duplicateItem)
    }

    /** The dialog's "yes, add" button: confirm the held duplicate. */
    method OnProceed(write: Outcome) returns (onSuccess: bool, ghost newId: string)
      requires viewModel.Valid()
      modifies viewModel, viewModel.repository
      ensures viewModel.Valid() && !viewModel.showWarningModal && viewModel.duplicateItem.None?
      ensures old(viewModel.duplicateItem).Some? ==>
                var st := AddStep(old(viewModel.repository.store), viewModel.repository.currentUser,
                                  old(viewModel.duplicateItem).value, None, write, newId);
                viewModel.repository.store == st.store && (onSuccess <==> st.outcome.Ok?)
      ensures old(viewModel.duplicateItem).None? ==> !onSuccess && viewModel.repository.store == old(viewModel.repository.store)
    {
      onSuccess, newId := viewModel.ConfirmAddDuplicateItem(write);
    }

    /** The dialog's "no, cancel" button and dismissal. */
    method OnCancel()
      requires viewModel.Valid()
      modifies viewModel
      ensures viewModel.Valid() && !viewModel.showWarningModal && viewModel.duplicateItem.None?
      ensures viewModel.repository.store == old(viewModel.repository.store)
    {
      viewModel.CancelAddDuplicateItem();
    }
  }
}
