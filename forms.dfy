/** The input checks of website/forms.py: the password strength rule, the
    price and impact rules of the product form, and the declared length and
    range bounds of the variant, cart and payment forms. A field's submitted
    value is `None` when the field is missing or empty. */
module Forms {
  import opened Wrappers
  import opened Text

  // ---------------------------------------------------------------------
  // strong_password (website/forms.py:8-23)

  /** The five checks of the password rule, named after the error each one
      raises; they run in the order they are declared here. */
  datatype PasswordError = TooShort | NoUppercase | NoLowercase | NoDigit | NoSpecial

  /** The message each check raises. */
  function Message(e: PasswordError): string
  {
    match e
    case TooShort => "Password must be at least 8 characters long."
    case NoUppercase => "Password must include at least one uppercase letter."
    case NoLowercase => "Password must include at least one lowercase letter."
    case NoDigit => "Password must include at least one number."
    case NoSpecial => "Password must include at least one special character."
  }

  /** The position of a check in the chain. */
  function Rank(e: PasswordError): nat
  {
    match e
    case TooShort => 0
    case NoUppercase => 1
    case NoLowercase => 2
    case NoDigit => 3
    case NoSpecial => 4
  }

  predicate IsDigit(c: char) { '0' <= c <= '9' }

  /** The class `[!@#$%^&*(),.?":{}|<>]`. */
  predicate IsSpecial(c: char)
  {
    c in "!@#$%^&*(),.?\":{}|<>"
  }

  /** `re.search(r'[A-Z]', p)` and its siblings: some character of `p` is in the class. */
  predicate HasUpper(p: string) { exists i :: 0 <= i < |p| && IsAsciiUpper(p[i]) }
  predicate HasLower(p: string) { exists i :: 0 <= i < |p| && IsAsciiLower(p[i]) }
  predicate HasDigit(p: string) { exists i :: 0 <= i < |p| && IsDigit(p[i]) }
  predicate HasSpecial(p: string) { exists i :: 0 <= i < |p| && IsSpecial(p[i]) }

  /** Whether `p` passes the check named `e`. */
  predicate Passes(p: string, e: PasswordError)
  {
    match e
    case TooShort => |p| >= 8
    case NoUppercase => HasUpper(p)
    case NoLowercase => HasLower(p)
    case NoDigit => HasDigit(p)
    case NoSpecial => HasSpecial(p)
  }

  /** `strong_password`: `None` when the password is accepted, otherwise the
      first check of the chain that fails. It is accepted exactly when all
      five checks pass; a reported error is a failing check, and every check
      before it passes. */
  function StrongPassword(p: string): (r: Option<PasswordError>)
    ensures r.None? <==> forall e :: Passes(p, e)
    ensures r.Some? ==> !Passes(p, r.value) && forall e :: Rank(e) < Rank(r.value) ==> Passes(p, e)
  {
    if !Passes(p, TooShort) then Some(TooShort)
    else if !Passes(p, NoUppercase) then Some(NoUppercase)
    else if !Passes(p, NoLowercase) then Some(NoLowercase)
    else if !Passes(p, NoDigit) then Some(NoDigit)
    else if !Passes(p, NoSpecial) then Some(NoSpecial)
    else None
  }

  /** Only the first failing check is reported: a password shorter than eight
      characters always gets the length error, whatever else is missing. */
  lemma ShortPasswordReportsLength(p: string)
    requires |p| < 8
    ensures StrongPassword(p) == Some(TooShort)
    ensures Message(StrongPassword(p).value) == "Password must be at least 8 characters long."
  {
  }

  /** The error reported is determined by the checks alone: two passwords
      that pass and fail the same checks get the same verdict. */
  lemma {:induction false} StrongPasswordByChecks(p: string, q: string)
    requires forall e :: Passes(p, e) == Passes(q, e)
    ensures StrongPassword(p) == StrongPassword(q)
  {
    assert Passes(p, TooShort) == Passes(q, TooShort);
    assert Passes(p, NoUppercase) == Passes(q, NoUppercase);
    assert Passes(p, NoLowercase) == Passes(q, NoLowercase);
    assert Passes(p, NoDigit) == Passes(q, NoDigit);
    assert Passes(p, NoSpecial) == Passes(q, NoSpecial);
  }

  /** A password with all four character classes and eight characters passes. */
  lemma StrongPasswordAccepts()
    ensures StrongPassword("Abcdef1!") == None
  {
    var p := "Abcdef1!";
    assert IsAsciiUpper(p[0]) && IsAsciiLower(p[1]) && IsDigit(p[6]) && IsSpecial(p[7]);
  }

  /** Without an upper-case letter the second check reports. */
  lemma StrongPasswordNoUpper()
    ensures StrongPassword("abcdef1!") == Some(NoUppercase)
  {
    var p := "abcdef1!";
    assert forall i :: 0 <= i < |p| ==> !IsAsciiUpper(p[i]);
  }

  /** A special character alone is not enough: the digit check comes first. */
  lemma StrongPasswordNoDigit()
    ensures StrongPassword("Abcdefg!") == Some(NoDigit)
  {
    var p := "Abcdefg!";
    assert IsAsciiUpper(p[0]) && IsAsciiLower(p[1]);
    assert forall i :: 0 <= i < |p| ==> !IsDigit(p[i]);
  }

  // ---------------------------------------------------------------------
  // AdminProductForm.validate_price / validate_environmental_impact
  // (website/forms.py:65-73)

  const PriceMessage := "Price is required for non-variant products. "
  const ImpactMessage := "Environmental Impact is required for non-variant products. "

  /** `validate_price`: the error message, or `None` when the field passes. */
  function ValidatePrice(isVariantParent: bool, price: Option<real>): Option<string>
  {
    if !isVariantParent && price.None? then Some(PriceMessage) else None
  }

  /** `validate_environmental_impact`, the same rule for the impact field. */
  function ValidateImpact(isVariantParent: bool, impact: Option<real>): Option<string>
  {
    if !isVariantParent && impact.None? then Some(ImpactMessage) else None
  }

  /** For a product with variants neither field can fail, whatever was submitted. */
  lemma VariantParentNeedsNoPrice(price: Option<real>, impact: Option<real>)
    ensures ValidatePrice(true, price).None? && ValidateImpact(true, impact).None?
  {
  }

  /** For a product without variants each field is required: it fails
      exactly when it is empty, and the two errors are told apart by their
      messages. */
  lemma StandaloneNeedsFigures(price: Option<real>, impact: Option<real>)
    ensures ValidatePrice(false, price).None? <==> price.Some?
    ensures ValidateImpact(false, impact).None? <==> impact.Some?
    ensures ValidatePrice(false, None) != ValidateImpact(false, None)
  {
  }

  /** Together the two rules say: the product form passes them exactly when
      the product has variants or both figures are given. */
  lemma ProductFormRule(isVariantParent: bool, price: Option<real>, impact: Option<real>)
    ensures ValidatePrice(isVariantParent, price).None? && ValidateImpact(isVariantParent, impact).None?
            <==> isVariantParent || (price.Some? && impact.Some?)
  {
  }

  // ---------------------------------------------------------------------
  // WTForms bounds as declared on the forms

  /** `Length(min, max)`; -1 stands for "no bound", as in WTForms. */
  predicate LengthOk(s: string, min: int, max: int)
  {
    !(|s| < min || (max != -1 && |s| > max))
  }

  /** `NumberRange(min, max)`: a missing number fails. */
  predicate NumberRangeOk(x: Option<int>, min: Option<int>, max: Option<int>)
  {
    x.Some? && !(min.Some? && x.value < min.value) && !(max.Some? && x.value > max.value)
  }

  /** One row of the variant table (`ProductVariantForm`, website/forms.py:104-114). */
  datatype VariantRowForm = VariantRowForm(sku: Option<string>, price: Option<real>,
                                           impact: Option<real>, stock: Option<int>)

  /** The row that a missing prefix yields: every field empty. */
  const EmptyRow := VariantRowForm(None, None, None, None)

  /** Every field present, an SKU of at most 50 characters and a stock that
      is not negative. The submitted SKU is checked but never stored. */
  function VariantRowValid(f: VariantRowForm): (ok: bool)
    ensures ok <==> f.sku.Some? && |f.sku.value| <= 50 && f.price.Some? && f.impact.Some?
                    && f.stock.Some? && f.stock.value >= 0
  {
    f.sku.Some? && LengthOk(f.sku.value, -1, 50) && f.price.Some? && f.impact.Some?
    && f.stock.Some? && NumberRangeOk(f.stock, Some(0), None)
  }

  /** `AddToCartForm.quantity` (website/forms.py:120-123): at least one item. */
  function CartQuantityValid(quantity: Option<int>): (ok: bool)
    ensures ok <==> quantity.Some? && quantity.value >= 1
  {
    quantity.Some? && NumberRangeOk(quantity, Some(1), None)
  }

  /** `PaymentForm` (website/forms.py:145-149): a card number of exactly 16
      characters, an expiry date, and a CVV of three or four characters. */
  function PaymentValid(card: Option<string>, expiry: Option<string>, cvv: Option<string>): (ok: bool)
    ensures ok <==> card.Some? && |card.value| == 16 && expiry.Some?
                    && cvv.Some? && 3 <= |cvv.value| <= 4
  {
    card.Some? && LengthOk(card.value, 16, 16) && expiry.Some?
    && cvv.Some? && LengthOk(cvv.value, 3, 4)
  }
}
