/** VentaController's checks on the sale form: the stock label shown beside a part,
    the new-client data, the "one more unit" check, and the product selection. */
module SaleChecks {
  import opened Outcomes
  import opened InvoiceIds
  import opened StockLedger
  import Parts
  import SaleAssembly

  // ---------------------------------------------------------------------------
  // Stock labels

  /** The band a stock level falls in when the stock table answers. */
  datatype StockBand = ErrorStock | NoStock | LowStock(n: nat) | InStock(n: nat)

  function Band(stock: int): (b: StockBand)
    ensures b.ErrorStock? <==> stock < 0
    ensures b.NoStock? <==> stock == 0
    ensures b.LowStock? <==> 1 <= stock <= 5
    ensures b.InStock? <==> stock > 5
    ensures (b.LowStock? || b.InStock?) ==> b.n == stock
  {
    if stock < 0 then ErrorStock
    else if stock == 0 then NoStock
    else if stock <= 5 then LowStock(stock)
    else InStock(stock)
  }

  /** The band on the fallback path, which reads the entity's own cached quantity and
      has no low-stock band. */
  function FallbackBand(stock: int): (b: StockBand)
    ensures !b.LowStock?
    ensures b.ErrorStock? <==> stock < 0
    ensures b.NoStock? <==> stock == 0
    ensures b.InStock? ==> b.n == stock
  {
    if stock < 0 then ErrorStock
    else if stock == 0 then NoStock
    else InStock(stock)
  }

  function BandText(b: StockBand): string
  {
    match b
    case ErrorStock => " (ERROR STOCK)"
    case NoStock => " (SIN STOCK)"
    case LowStock(n) => " (Stock BAJO: " + Digits(n) + ")"
    case InStock(n) => " (Stock: " + Digits(n) + ")"
  }

  function StockLabel(stock: int): string
  {
    BandText(Band(stock))
  }

  function FallbackStockLabel(stock: int): string
  {
    BandText(FallbackBand(stock))
  }

  /** Different bands print different text, and a number is printed in full. */
  lemma {:induction false} BandTextInjective(a: StockBand, b: StockBand)
    requires BandText(a) == BandText(b)
    ensures a == b
  {
    var s := BandText(a);
    match a {
      case ErrorStock =>
        assert s[3] == 'R';
      case NoStock =>
        assert s[3] == 'I';
      case LowStock(n) =>
        assert s[3] == 't' && s[8] == 'B';
        if b.LowStock? {
          DigitsInjective(n, b.n, " (Stock BAJO: ", ")");
        }
      case InStock(n) =>
        assert s[3] == 't' && s[7] == ':';
        if b.InStock? {
          DigitsInjective(n, b.n, " (Stock: ", ")");
        }
    }
    match b {
      case ErrorStock => assert s[3] == 'R';
      case NoStock => assert s[3] == 'I';
      case LowStock(_) => assert s[3] == 't' && s[8] == 'B';
      case InStock(_) => assert s[3] == 't' && s[7] == ':';
    }
  }

  lemma DigitsInjective(m: nat, n: nat, before: string, after: string)
    requires before + Digits(m) + after == before + Digits(n) + after
    ensures m == n
  {
    var s := before + Digits(m) + after;
    assert |Digits(m)| == |Digits(n)|;
    assert Digits(m) == s[|before|..|s| - |after|] == Digits(n);
    ValueOfDigits(m);
    ValueOfDigits(n);
  }

  /** A label names the level it was made from, unless the level is negative. */
  lemma StockLabelDeterminesStock(a: int, b: int)
    requires a >= 0 && b >= 0 && StockLabel(a) == StockLabel(b)
    ensures a == b
  {
    BandTextInjective(Band(a), Band(b));
  }

  /** The two label paths agree except on a low stock of 1 to 5 units. */
  lemma FallbackLabelDiffersOnlyWhenLow(stock: int)
    ensures StockLabel(stock) == FallbackStockLabel(stock) <==> !(1 <= stock <= 5)
  {
    if StockLabel(stock) == FallbackStockLabel(stock) {
      BandTextInjective(Band(stock), FallbackBand(stock));
    }
  }

  // ---------------------------------------------------------------------------
  // validateClientData

  /** String.trim: drops leading and trailing characters up to and including ' '. */
  function Trim(s: string): (t: string)
    ensures |t| <= |s|
    ensures t == [] || (t[0] > ' ' && t[|t| - 1] > ' ')
  {
    TrimEnd(TrimStart(s))
  }

  function TrimStart(s: string): (t: string)
    ensures |t| <= |s| && (t == [] || t[0] > ' ')
    ensures forall k | 0 <= k < |s| - |t| :: s[k] <= ' '
    ensures t == s[|s| - |t|..]
  {
    if s != [] && s[0] <= ' ' then TrimStart(s[1..]) else s
  }

  function TrimEnd(s: string): (t: string)
    ensures |t| <= |s| && (t == [] || t[|t| - 1] > ' ')
    ensures forall k | |t| <= k < |s| :: s[k] <= ' '
    ensures t == s[..|t|]
  {
    if s != [] && s[|s| - 1] <= ' ' then TrimEnd(s[..|s| - 1]) else s
  }

  lemma TrimEndKeepsFirst(s: string)
    requires s != [] && s[0] > ' '
    ensures TrimEnd(s) != [] && TrimEnd(s)[0] == s[0]
  {
  }

  /** Trimming leaves nothing exactly when the text is blank. */
  lemma TrimEmptyIffBlank(s: string)
    ensures Trim(s) == [] <==> IsBlank(s)
  {
    var u := TrimStart(s);
    if u != [] {
      TrimEndKeepsFirst(u);
      assert s[|s| - |u|] == u[0];
    }
  }

  /** String.length: the number of UTF-16 code units, two for a character outside the
      Basic Multilingual Plane. */
  function Utf16Length(s: string): (n: nat)
    ensures |s| <= n <= 2 * |s|
    ensures n == |s| <==> forall k | 0 <= k < |s| :: (s[k] as int) < 0x1_0000
  {
    if s == [] then 0 else Utf16Length(s[..|s| - 1]) + (if s[|s| - 1] as int >= 0x1_0000 then 2 else 1)
  }

  datatype ClientError =
    | IncompleteData
    | NameRequired | NameTooLong
    | SurnameRequired | SurnameTooLong
    | InvalidEmail
    | PhoneTooLong

  /** The form field a message is about, in the order the fields are checked. */
  function FieldOf(e: ClientError): nat
  {
    match e
    case NameRequired | NameTooLong => 0
    case SurnameRequired | SurnameTooLong => 1
    case InvalidEmail => 2
    case PhoneTooLong => 3
    case IncompleteData => 4
  }

  /** At most one message per field, in the order of the fields. */
  predicate OnePerFieldInOrder(errors: seq<ClientError>)
  {
    forall a, b | 0 <= a < b < |errors| :: FieldOf(errors[a]) < FieldOf(errors[b])
  }

  /** A null field reads as the empty string. */
  function Field(datos: seq<Option<string>>, k: nat): string
    requires k < |datos|
  {
    Trimmed(datos[k])
  }

  function Trimmed(f: Option<string>): string
  {
    if f.None? then "" else Trim(f.value)
  }

  function RequiredError(value: string, missing: ClientError, tooLong: ClientError): seq<ClientError>
  {
    if value == [] then [missing] else if Utf16Length(value) > 50 then [tooLong] else []
  }

  /** The messages validateClientData would collect, in order. */
  function ClientDataErrors(datos: seq<Option<string>>): (errors: seq<ClientError>)
    ensures |errors| <= 4 && OnePerFieldInOrder(errors)
  {
    if |datos| != 4 then [IncompleteData]
    else FieldErrors(Field(datos, 0), Field(datos, 1), Field(datos, 2), Field(datos, 3))
  }

  /** The messages for the four trimmed fields. */
  function FieldErrors(name: string, surname: string, email: string, phone: string): (errors: seq<ClientError>)
    ensures |errors| <= 4 && OnePerFieldInOrder(errors)
  {
    var r1 := RequiredError(name, NameRequired, NameTooLong);
    var r2 := RequiredError(surname, SurnameRequired, SurnameTooLong);
    var r3: seq<ClientError> := if email != [] && ('@' !in email || '.' !in email || Utf16Length(email) > 100) then [InvalidEmail] else [];
    var r4: seq<ClientError> := if phone != [] && Utf16Length(phone) > 20 then [PhoneTooLong] else [];
    FieldsInOrder(r1, r2, r3, r4);
    r1 + r2 + r3 + r4
  }

  /** Four lists of at most one message each, the k-th about field k, join in order. */
  lemma FieldsInOrder(r1: seq<ClientError>, r2: seq<ClientError>, r3: seq<ClientError>, r4: seq<ClientError>)
    requires |r1| <= 1 && |r2| <= 1 && |r3| <= 1 && |r4| <= 1
    requires (r1 != [] ==> FieldOf(r1[0]) == 0) && (r2 != [] ==> FieldOf(r2[0]) == 1)
    requires (r3 != [] ==> FieldOf(r3[0]) == 2) && (r4 != [] ==> FieldOf(r4[0]) == 3)
    ensures |r1 + r2 + r3 + r4| <= 4 && OnePerFieldInOrder(r1 + r2 + r3 + r4)
  {
    var s := r1 + r2 + r3 + r4;
    forall a, b | 0 <= a < b < |s| ensures FieldOf(s[a]) < FieldOf(s[b]) {
      assert forall k | 0 <= k < |s| :: FieldOf(s[k]) >= k;
      assert forall k | 0 <= k < |s| :: FieldOf(s[k]) <= 3 - (|s| - 1 - k);
    }
  }

  lemma FieldErrorsIndependent(name: string, surname: string, email: string, phone: string)
    ensures NameRequired in FieldErrors(name, surname, email, phone) <==> name == []
    ensures SurnameRequired in FieldErrors(name, surname, email, phone) <==> surname == []
    ensures PhoneTooLong in FieldErrors(name, surname, email, phone) <==> phone != [] && Utf16Length(phone) > 20
  {
    var r1 := RequiredError(name, NameRequired, NameTooLong);
    var r2 := RequiredError(surname, SurnameRequired, SurnameTooLong);
    var r3: seq<ClientError> := if email != [] && ('@' !in email || '.' !in email || Utf16Length(email) > 100) then [InvalidEmail] else [];
    var r4: seq<ClientError> := if phone != [] && Utf16Length(phone) > 20 then [PhoneTooLong] else [];
    InConcat(NameRequired, r1, r2, r3, r4);
    InConcat(SurnameRequired, r1, r2, r3, r4);
    InConcat(PhoneTooLong, r1, r2, r3, r4);
  }

  /** A field given as null or blank. */
  predicate Absent(f: Option<string>)
  {
    f.None? || IsBlank(f.value)
  }

  /** Acceptable client data, stated on the raw fields. */
  predicate AcceptableClient(datos: seq<Option<string>>)
  {
    |datos| == 4 && RequiredName(datos[0]) && RequiredName(datos[1]) && OptionalEmail(datos[2]) && OptionalPhone(datos[3])
  }

  /** A name or surname: given, not blank, at most 50 UTF-16 units once trimmed. */
  predicate RequiredName(f: Option<string>)
  {
    f.Some? && !IsBlank(f.value) && Utf16Length(Trim(f.value)) <= 50
  }

  /** An email: absent, or with '@' and '.' and at most 100 UTF-16 units once trimmed. */
  predicate OptionalEmail(f: Option<string>)
  {
    f.None? || IsBlank(f.value) || (var e := Trim(f.value); '@' in e && '.' in e && Utf16Length(e) <= 100)
  }

  /** A phone: absent, or at most 20 UTF-16 units once trimmed. */
  predicate OptionalPhone(f: Option<string>)
  {
    f.None? || IsBlank(f.value) || Utf16Length(Trim(f.value)) <= 20
  }

  /** validateClientData: true exactly when no message was collected. */
  function ValidateClientData(datos: seq<Option<string>>): (ok: bool)
    ensures ok <==> AcceptableClient(datos)
  {
    if |datos| == 4 then
      NameField(datos[0]);
      NameField(datos[1]);
      EmailField(datos[2]);
      PhoneField(datos[3]);
      FieldErrorsEmpty(Field(datos, 0), Field(datos, 1), Field(datos, 2), Field(datos, 3));
      ClientDataErrors(datos) == []
    else false
  }

  lemma FieldErrorsEmpty(name: string, surname: string, email: string, phone: string)
    ensures FieldErrors(name, surname, email, phone) == [] <==>
      && name != [] && Utf16Length(name) <= 50 && surname != [] && Utf16Length(surname) <= 50
      && (email == [] || ('@' in email && '.' in email && Utf16Length(email) <= 100))
      && (phone == [] || Utf16Length(phone) <= 20)
  {
  }

  lemma NameField(f: Option<string>)
    ensures (Trimmed(f) != [] && Utf16Length(Trimmed(f)) <= 50) <==> RequiredName(f)
  {
    if f.Some? { TrimEmptyIffBlank(f.value); }
  }

  lemma EmailField(f: Option<string>)
    ensures (var e := Trimmed(f); e == [] || ('@' in e && '.' in e && Utf16Length(e) <= 100)) <==> OptionalEmail(f)
  {
    if f.Some? { TrimEmptyIffBlank(f.value); }
  }

  lemma PhoneField(f: Option<string>)
    ensures (Trimmed(f) == [] || Utf16Length(Trimmed(f)) <= 20) <==> OptionalPhone(f)
  {
    if f.Some? { TrimEmptyIffBlank(f.value); }
  }

  lemma FieldsEmptyIffAbsent(datos: seq<Option<string>>)
    ensures forall k | 0 <= k < |datos| :: Field(datos, k) == [] <==> Absent(datos[k])
  {
    forall k | 0 <= k < |datos| ensures Field(datos, k) == [] <==> Absent(datos[k]) {
      if datos[k].Some? { TrimEmptyIffBlank(datos[k].value); }
    }
  }

  /** Every rule is checked independently: a missing name and an overlong phone are
      both reported. */
  lemma ClientErrorsIndependent(datos: seq<Option<string>>)
    requires |datos| == 4
    ensures NameRequired in ClientDataErrors(datos) <==> Absent(datos[0])
    ensures SurnameRequired in ClientDataErrors(datos) <==> Absent(datos[1])
    ensures PhoneTooLong in ClientDataErrors(datos) <==> !Absent(datos[3]) && Utf16Length(Trim(datos[3].value)) > 20
  {
    FieldsEmptyIffAbsent(datos);
    FieldErrorsIndependent(Field(datos, 0), Field(datos, 1), Field(datos, 2), Field(datos, 3));
  }

  lemma InConcat(e: ClientError, r1: seq<ClientError>, r2: seq<ClientError>, r3: seq<ClientError>, r4: seq<ClientError>)
    ensures e in r1 + r2 + r3 + r4 <==> e in r1 || e in r2 || e in r3 || e in r4
  {
  }

  // ---------------------------------------------------------------------------
  // validateComponentForAddition and validateProductSelection

  function CountText(entries: seq<string>, text: string): nat
  {
    if entries == [] then 0 else CountText(entries[..|entries| - 1], text) + (if entries[|entries| - 1] == text then 1 else 0)
  }

  /** validateComponentForAddition: the level, the out-of-stock flag and one more unit
      than the entries already selected with the same display text. */
  method ValidateComponentForAddition(stock: StockTable, id: int, displayText: string, selected: seq<string>)
      returns (ok: bool)
    ensures ok <==> CountText(selected, displayText) < Level(stock.levels, id)
  {
    var current := stock.GetStockLevel(id);
    if current < 0 {
      return false;
    }
    if current <= 0 || stock.IsOutOfStock(id) {
      return false;
    }
    var selectedCount := 0;
    for i := 0 to |selected|
      invariant selectedCount == CountText(selected[..i], displayText)
    {
      assert selected[..i + 1][..i] == selected[..i];
      if displayText == selected[i] {
        selectedCount := selectedCount + 1;
      }
    }
    assert selected[..|selected|] == selected;
    ok := stock.IsStockAvailable(id, selectedCount + 1);
  }

  /** Accepting a part keeps the selection of that entry within the stock level. */
  lemma AdditionStaysWithinStock(levels: map<int, int>, id: int, displayText: string, selected: seq<string>)
    requires CountText(selected, displayText) < Level(levels, id)
    ensures CountText(selected + [displayText], displayText) <= Level(levels, id)
  {
    assert (selected + [displayText])[..|selected|] == selected;
  }

  /** validateProductSelection: a sale needs a combo (index 0 is "Ninguno") or at
      least one individual part. */
  predicate ValidateProductSelection(comboIndex: int, selected: seq<string>)
  {
    !(comboIndex <= 0 && |selected| == 0)
  }

  /** The sale collectPurchaseData builds is the expanded combo (when one is chosen)
      followed by one part per selected entry. When every detail asks for at least
      one unit, as the combo form always stores, the selection check passes exactly
      when that sale is not empty. */
  lemma AcceptedSelectionSellsSomething(comboIndex: int, rows: seq<SaleAssembly.DetailRow>,
                                        comboSale: seq<Parts.Part>, selected: seq<string>)
    requires comboIndex > 0 ==> rows != [] && SaleAssembly.Expand(rows) == Some(comboSale)
    requires comboIndex > 0 ==> forall k | 0 <= k < |rows| :: rows[k].quantity >= 1
    requires comboIndex <= 0 ==> comboSale == []
    ensures ValidateProductSelection(comboIndex, selected) <==> |comboSale| + |selected| > 0
  {
    if comboIndex > 0 {
      SaleAssembly.ExpandCorrect(rows);
      assert SaleAssembly.TotalUnits(rows) >= SaleAssembly.Units(rows[0].quantity) >= 1;
    }
  }
}
