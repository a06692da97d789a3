/** The add/edit form: its five text fields, the four validation rules with
    their messages, and the coercion of a valid form into a record draft. */
module ProductForm {
  import opened Strings
  import opened Numbers
  import opened Catalog

  /** The `name` attributes of the form's inputs. */
  datatype Field = Name | Price | Category | Stock | Description

  const Fields: set<Field> := {Name, Price, Category, Stock, Description}

  /** The draft form: every field holds the text of its input. */
  datatype FormData = FormData(name: string, price: string, category: string, stock: string, description: string) {

    function Get(f: Field): string {
      match f
      case Name => name
      case Price => price
      case Category => category
      case Stock => stock
      case Description => description
    }

    /** `{ ...prev, [f]: v }`: field `f` takes the new text, the others keep theirs. */
    function Set(f: Field, v: string): (r: FormData)
      ensures r.Get(f) == v
      ensures forall g :: g != f ==> r.Get(g) == Get(g)
    {
      match f
      case Name => this.(name := v)
      case Price => this.(price := v)
      case Category => this.(category := v)
      case Stock => this.(stock := v)
      case Description => this.(description := v)
    }
  }

  /** The form as the add dialog opens it and as closing resets it. */
  const BlankForm := FormData("", "", "", "", "")

  const NameRequired := "Product name is required"
  const PriceNotPositive := "Price must be greater than 0"
  const CategoryRequired := "Category is required"
  const StockNegative := "Stock cannot be negative"

  /** The message a failed rule records; the description has no rule. */
  function Message(f: Field): string {
    match f
    case Name => NameRequired
    case Price => PriceNotPositive
    case Category => CategoryRequired
    case Stock => StockNegative
    case Description => ""
  }

  /** The rule of each field, with `parseFloat` as the number parser:
      a name or category made only of whitespace; a price that is empty or
      parses to a number at most 0; a non-empty stock that parses to a number
      below 0. The description is never checked. */
  ghost predicate Defective(form: FormData, f: Field, parseFloat: string -> JsNumber) {
    match f
    case Name => AllWhitespace(form.name)
    case Price => form.price == "" || IsAtMostZero(parseFloat(form.price))
    case Category => AllWhitespace(form.category)
    case Stock => form.stock != "" && IsNegative(parseFloat(form.stock))
    case Description => false
  }

  /** The error map validation records: one message per defective field. */
  ghost function Errors(form: FormData, parseFloat: string -> JsNumber): map<Field, string> {
    map f | f in Fields && Defective(form, f, parseFloat) :: Message(f)
  }

  /** Every rule is checked: the error map has an entry, carrying the rule's
      message, for each defective field and for no other field. */
  lemma ErrorsReportEveryDefect(form: FormData, parseFloat: string -> JsNumber, f: Field)
    ensures f in Errors(form, parseFloat) <==> Defective(form, f, parseFloat)
    ensures f in Errors(form, parseFloat) ==> Errors(form, parseFloat)[f] == Message(f) != ""
  {
  }

  /** One step of validation: the message of `f` is recorded when its rule failed. */
  function Recorded(errors: map<Field, string>, f: Field, failed: bool): map<Field, string> {
    if failed then errors[f := Message(f)] else errors
  }

  /** Recording the four rules one after the other builds the error map. */
  lemma ErrorsInSteps(form: FormData, parseFloat: string -> JsNumber)
    ensures Errors(form, parseFloat) ==
      Recorded(Recorded(Recorded(Recorded(map[],
        Name, Defective(form, Name, parseFloat)),
        Price, Defective(form, Price, parseFloat)),
        Category, Defective(form, Category, parseFloat)),
        Stock, Defective(form, Stock, parseFloat))
  {
    var spec := Errors(form, parseFloat);
    var steps := Recorded(Recorded(Recorded(Recorded(map[],
        Name, Defective(form, Name, parseFloat)),
        Price, Defective(form, Price, parseFloat)),
        Category, Defective(form, Category, parseFloat)),
        Stock, Defective(form, Stock, parseFloat));
    forall f ensures f in spec <==> f in steps {
      ErrorsReportEveryDefect(form, parseFloat, f);
    }
  }

  /** The same, with the outcome of each rule already computed. */
  lemma ErrorsFromChecks(form: FormData, parseFloat: string -> JsNumber,
                         nameBlank: bool, priceBad: bool, categoryBlank: bool, stockBad: bool)
    requires nameBlank == Defective(form, Name, parseFloat)
    requires priceBad == Defective(form, Price, parseFloat)
    requires categoryBlank == Defective(form, Category, parseFloat)
    requires stockBad == Defective(form, Stock, parseFloat)
    ensures Errors(form, parseFloat) ==
      Recorded(Recorded(Recorded(Recorded(map[], Name, nameBlank), Price, priceBad), Category, categoryBlank), Stock, stockBad)
  {
    ErrorsInSteps(form, parseFloat);
  }

  /** A price or stock text that parses to NaN trips no rule: `NaN <= 0` and
      `NaN < 0` are both false, so only an empty price is reported. */
  lemma NaNTripsNoRule(form: FormData, parseFloat: string -> JsNumber)
    ensures form.price != "" && parseFloat(form.price).NaN? ==> Price !in Errors(form, parseFloat)
    ensures parseFloat(form.stock).NaN? ==> Stock !in Errors(form, parseFloat)
  {
    ErrorsReportEveryDefect(form, parseFloat, Price);
    ErrorsReportEveryDefect(form, parseFloat, Stock);
  }

  /** The form is valid, its error map empty, exactly when none of the four
      rules fails. */
  lemma ValidIffNoDefect(form: FormData, parseFloat: string -> JsNumber)
    ensures Errors(form, parseFloat) == map[] <==>
      && !AllWhitespace(form.name)
      && !(form.price == "" || IsAtMostZero(parseFloat(form.price)))
      && !AllWhitespace(form.category)
      && !(form.stock != "" && IsNegative(parseFloat(form.stock)))
  {
    if Errors(form, parseFloat) == map[] {
      forall f | f in Fields ensures !Defective(form, f, parseFloat) {
        assert f !in Errors(form, parseFloat);
      }
    }
  }

  /** Rules that hold whatever the parser does: an empty price is an error, an
      empty stock is not, the description never is, and the name and category
      are errors exactly when they trim to the empty string. */
  lemma RulesIndependentOfParser(form: FormData, parseFloat: string -> JsNumber)
    ensures form.price == "" ==> Price in Errors(form, parseFloat)
    ensures form.stock == "" ==> Stock !in Errors(form, parseFloat)
    ensures Description !in Errors(form, parseFloat)
    ensures Name in Errors(form, parseFloat) <==> Trim(form.name) == ""
    ensures Category in Errors(form, parseFloat) <==> Trim(form.category) == ""
  {
    TrimEmptyIffBlank(form.name);
    TrimEmptyIffBlank(form.category);
    ErrorsReportEveryDefect(form, parseFloat, Name);
    ErrorsReportEveryDefect(form, parseFloat, Price);
    ErrorsReportEveryDefect(form, parseFloat, Category);
    ErrorsReportEveryDefect(form, parseFloat, Stock);
    ErrorsReportEveryDefect(form, parseFloat, Description);
  }

  /** One check of `validateForm`: `!name.trim()`, `!price || parseFloat(price) <= 0`,
      `!category.trim()` or `stock && parseFloat(stock) < 0`; the description
      is not checked. */
  method RuleFails(form: FormData, f: Field, parseFloat: string -> JsNumber) returns (failed: bool)
    ensures failed <==> Defective(form, f, parseFloat)
  {
    match f
    case Name => failed := Blank(form.name);
    case Price => failed := form.price == "" || IsAtMostZero(parseFloat(form.price));
    case Category => failed := Blank(form.category);
    case Stock => failed := form.stock != "" && IsNegative(parseFloat(form.stock));
    case Description => failed := false;
  }

  /** The rule checks of `validateForm`, one after the other, none skipped:
      the map ends up holding exactly the messages of the failed rules. */
  method CheckRules(form: FormData, parseFloat: string -> JsNumber) returns (errors: map<Field, string>)
    ensures errors == Errors(form, parseFloat)
  {
    var nameBlank := RuleFails(form, Name, parseFloat);
    var priceBad := RuleFails(form, Price, parseFloat);
    var categoryBlank := RuleFails(form, Category, parseFloat);
    var stockBad := RuleFails(form, Stock, parseFloat);
    ErrorsFromChecks(form, parseFloat, nameBlank, priceBad, categoryBlank, stockBad);
    errors := map[];
    if nameBlank {
      errors := errors[Name := NameRequired];
    }
    if priceBad {
      errors := errors[Price := PriceNotPositive];
    }
    if categoryBlank {
      errors := errors[Category := CategoryRequired];
    }
    if stockBad {
      errors := errors[Stock := StockNegative];
    }
  }

  /** `{ ...formData, price: parseFloat(price), stock: stock ? parseInt(stock) : 0 }`:
      the draft a valid form commits. */
  function ToDraft(form: FormData, parseFloat: string -> JsNumber, parseInt: string -> JsNumber): Draft {
    Draft(form.name, parseFloat(form.price), form.category,
          if form.stock != "" then parseInt(form.stock) else Finite(0.0),
          form.description)
  }

  /** The committed draft carries the three texts over unchanged and stores
      stock 0 for an empty stock field, whatever `parseInt` would make of it. */
  lemma DraftCarriesForm(form: FormData, parseFloat: string -> JsNumber, parseInt: string -> JsNumber)
    ensures ToDraft(form, parseFloat, parseInt).name == form.name
    ensures ToDraft(form, parseFloat, parseInt).category == form.category
    ensures ToDraft(form, parseFloat, parseInt).description == form.description
    ensures form.stock == "" ==> ToDraft(form, parseFloat, parseInt).stock == Finite(0.0)
  {
  }

  /** The form the edit dialog opens for a record: its texts, and its numbers
      rendered with `toString`. */
  function FromProduct(p: Product, toText: JsNumber -> string): FormData {
    FormData(p.data.name, toText(p.data.price), p.data.category, toText(p.data.stock), p.data.description)
  }

  /** Opening a record for editing and committing the form untouched gives the
      record's own fields back, as long as the number parsers read back what
      `toString` wrote and the stock text is not empty. */
  lemma EditRoundTrip(p: Product, toText: JsNumber -> string,
                      parseFloat: string -> JsNumber, parseInt: string -> JsNumber)
    requires parseFloat(toText(p.data.price)) == p.data.price
    requires toText(p.data.stock) != "" && parseInt(toText(p.data.stock)) == p.data.stock
    ensures ToDraft(FromProduct(p, toText), parseFloat, parseInt) == p.data
  {
  }
}
