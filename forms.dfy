/**
 * The validator lists of forms/forms.py as predicates over the submitted
 * field values. A form that fails them is re-rendered and nothing changes;
 * the handlers model that as an error outcome.
 */
module Forms {
  import opened Wrappers
  import opened Text
  import opened Billing
  import Plate

  /**
   * DataRequired on a text field: the value has a non-whitespace character.
   * (On a number field it rejects zero, which is falsy in Python.)
   */
  predicate Required(s: string) {
    !IsBlank(s)
  }

  /** ParkingLotForm. A number that does not parse arrives as None. */
  datatype LotForm = LotForm(
    primename: string,
    address: string,
    pincode: string,
    price: Option<real>,
    maxspots: Option<int>)

  predicate LotFormValid(f: LotForm) {
    && Required(f.primename) && 2 <= |f.primename| <= 100
    && Required(f.address)
    && Required(f.pincode) && |f.pincode| == 6
    && f.price.Some? && f.price.value != 0.0 && 0.0 <= f.price.value <= 999.0
    && f.maxspots.Some? && f.maxspots.value != 0 && 1 <= f.maxspots.value
  }

  /**
   * What a valid lot form guarantees to the handlers: a positive price of
   * at most 999 that rounds to 0..99900 paise, at least one spot, and
   * non-empty stripped name, address and pincode, the pincode at most 6
   * characters once stripped.
   */
  lemma LotFormBounds(f: LotForm)
    requires LotFormValid(f)
    ensures 0.0 < f.price.value <= 999.0 && 0 <= RoundCents(f.price.value) <= 99900
    ensures 1 <= f.maxspots.value
    ensures Strip(f.primename) != [] && Strip(f.address) != []
    ensures 1 <= |Strip(f.pincode)| <= 6
  {
    RoundCentsBounds(f.price.value);
  }

  /** Only the pincode's length is checked: letters pass, and surrounding blanks count towards the six. */
  lemma PincodeOnlyLengthChecked()
    ensures LotFormValid(LotForm("City Mall", "1 Main Road", "abcdef", Some(20.0), Some(5)))
    ensures LotFormValid(LotForm("City Mall", "1 Main Road", " 4000 ", Some(20.0), Some(5)))
  {
    assert !IsBlank("City Mall") by { assert !IsSpace("City Mall"[0]); }
    assert !IsBlank("1 Main Road") by { assert !IsSpace("1 Main Road"[0]); }
    assert !IsBlank("abcdef") by { assert !IsSpace("abcdef"[0]); }
    assert !IsBlank(" 4000 ") by { assert !IsSpace(" 4000 "[1]); }
  }

  /** The padded pincode that passed above is stored with four characters. */
  lemma PaddedPincodeStoredShort()
    ensures Strip(" 4000 ") == "4000"
  {
    assert StripLeft("4000 ") == "4000 ";
    assert StripLeft(" 4000 ") == "4000 " by { assert " 4000 "[1..] == "4000 "; }
    assert StripRight("4000") == "4000";
    assert StripRight("4000 ") == "4000" by { assert "4000 "[..4] == "4000"; }
  }

  /** BookSpotFrom: DataRequired and the plate Regexp, both on the text as typed. */
  predicate BookFormValid(vehicle: string) {
    Required(vehicle) && Plate.PatternMatches(vehicle)
  }

  /** The search criteria offered by LotSearchForm's select field. */
  datatype Criterion = ByUserId | ByAddress | ByPincode

  function CriterionValue(c: Criterion): string {
    match c
    case ByUserId => "user_id"
    case ByAddress => "address"
    case ByPincode => "pincode"
  }

  /** The select field accepts exactly the three choice values. */
  function ParseCriterion(s: string): (r: Option<Criterion>)
    ensures r.Some? <==> s == "user_id" || s == "address" || s == "pincode"
    ensures r.Some? ==> CriterionValue(r.value) == s
  {
    if s == "user_id" then Some(ByUserId)
    else if s == "address" then Some(ByAddress)
    else if s == "pincode" then Some(ByPincode)
    else None
  }

  lemma CriterionRoundTrip(c: Criterion)
    ensures ParseCriterion(CriterionValue(c)) == Some(c)
  {
  }

  /** LotSearchForm: a choice from the select and a non-blank query. */
  predicate SearchFormValid(searchBy: string, query: string) {
    ParseCriterion(searchBy).Some? && Required(query)
  }

  /** The search form passes exactly for one of the three choices and a query with something left after stripping. */
  lemma SearchFormAccepts(searchBy: string, query: string)
    ensures SearchFormValid(searchBy, query) <==>
              (searchBy == "user_id" || searchBy == "address" || searchBy == "pincode") && Strip(query) != []
  {
  }

  /**
   * The contact fields ExtendedForm adds to registration and
   * EditProfileForm repeats: address, a six-character pincode and a name.
   */
  predicate ContactFieldsValid(address: string, pincode: string, name: string) {
    Required(address) && Required(pincode) && |pincode| == 6 && Required(name)
  }

  /**
   * EditProfileForm. Whether the e-mail address is syntactically valid is
   * decided by the external `email_validator` package; its verdict is a field.
   */
  datatype ProfileForm = ProfileForm(
    email: string,
    emailWellFormed: bool,
    address: string,
    pincode: string,
    name: string)

  predicate ProfileFormValid(f: ProfileForm) {
    Required(f.email) && f.emailWellFormed && ContactFieldsValid(f.address, f.pincode, f.name)
  }

  /**
   * What a valid profile form guarantees to edit_profile: a well-formed
   * e-mail address, and e-mail, address and name that stay non-empty once
   * stripped, with a pincode of one to six characters once stripped.
   */
  lemma ProfileFormBounds(f: ProfileForm)
    requires ProfileFormValid(f)
    ensures f.emailWellFormed
    ensures Strip(f.email) != [] && Strip(f.address) != [] && Strip(f.name) != []
    ensures 1 <= |Strip(f.pincode)| <= 6
  {
  }

  /** The booking form passes exactly a plate, or a plate followed by one newline. */
  lemma BookFormAccepts(vehicle: string)
    ensures BookFormValid(vehicle) <==>
              Plate.IsValidPlate(vehicle) || exists p :: Plate.IsValidPlate(p) && vehicle == p + "\n"
  {
    if vehicle != [] && vehicle[|vehicle| - 1] == '\n' && Plate.IsValidPlate(vehicle[..|vehicle| - 1]) {
      assert vehicle == vehicle[..|vehicle| - 1] + "\n";
    }
    forall p | Plate.IsValidPlate(p) && vehicle == p + "\n" ensures BookFormValid(vehicle) {
      assert vehicle[..|vehicle| - 1] == p;
      PlateNotBlank(p);
      assert vehicle[0] == p[0];
    }
    if Plate.IsValidPlate(vehicle) {
      PlateNotBlank(vehicle);
    }
  }

  /** A plate has a first character that is not whitespace. */
  lemma PlateNotBlank(p: string)
    requires Plate.IsValidPlate(p)
    ensures p != [] && !IsSpace(p[0])
  {
    Plate.ValidPlateIsNormal(p);
  }
}
