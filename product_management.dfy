/** The state of the product management component and the event handlers
    that change it: search settle, page navigation, page size, the add/edit
    dialog, field edits, validation and submit. */
module ProductManagement {
  import opened Strings
  import opened Numbers
  import opened Catalog
  import opened Pagination
  import opened ProductForm

  datatype Option<T> = None | Some(value: T)

  /** The sample catalog the component starts with. */
  const InitialProducts: seq<Product> := [
    Product(1, Draft("Laptop", Finite(45000.0), "Electronics", Finite(15.0), "High-performance laptop for professionals")),
    Product(2, Draft("Smartphone", Finite(25000.0), "Electronics", Finite(30.0), "Latest smartphone with advanced features")),
    Product(3, Draft("Headphones", Finite(3000.0), "Electronics", Finite(50.0), "Wireless noise-cancelling headphones")),
    Product(4, Draft("Office Chair", Finite(8000.0), "Furniture", Finite(20.0), "Ergonomic office chair")),
    Product(5, Draft("Desk Lamp", Finite(1500.0), "Furniture", Finite(40.0), "LED desk lamp with adjustable brightness")),
    Product(6, Draft("Water Bottle", Finite(500.0), "Accessories", Finite(100.0), "Stainless steel water bottle")),
    Product(7, Draft("Backpack", Finite(2000.0), "Accessories", Finite(35.0), "Laptop backpack with multiple compartments")),
    Product(8, Draft("Monitor", Finite(15000.0), "Electronics", Finite(12.0), "27-inch 4K monitor")),
    Product(9, Draft("Keyboard", Finite(2500.0), "Electronics", Finite(45.0), "Mechanical keyboard with RGB lighting")),
    Product(10, Draft("Mouse", Finite(1200.0), "Electronics", Finite(60.0), "Wireless gaming mouse")),
    Product(11, Draft("Notebook", Finite(200.0), "Stationery", Finite(200.0), "A4 ruled notebook")),
    Product(12, Draft("Pen Set", Finite(350.0), "Stationery", Finite(150.0), "Set of 10 ballpoint pens"))
  ]

  /** The sample records carry the ids 1 to 12, in order, so they are unique. */
  lemma InitialIdsUnique()
    ensures UniqueIds(InitialProducts)
  {
    assert forall i :: 0 <= i < |InitialProducts| ==> InitialProducts[i].id == i + 1;
  }

  /** The first insert into the sample catalog receives id 13. */
  lemma InitialNextId()
    ensures NextId(InitialProducts) == 13
  {
    assert forall i :: 0 <= i < |InitialProducts| ==> InitialProducts[i].id == i + 1;
    assert InitialProducts[11] in InitialProducts;
  }

  /** With 13 records, the thirteenth is shown last on page 3 at 5 records
      per page, and on page 1 at 20. */
  lemma ThirteenthOnLastPage(ps: seq<Product>)
    requires |ps| == 13
    ensures Window(ps, 3, 5) == ps[10..13]
    ensures ps[12] in Window(ps, 1, 20)
  {
    WindowOfPage(ps, 3, 5);
    WindowOfPage(ps, 1, 20);
    assert Window(ps, 1, 20) == ps;
  }

  /** The searched name "tablet" does not include "zzz". */
  lemma TabletMissesZzz(p: Product)
    requires p.data.name == "Tablet"
    ensures !NameMatches(p, "zzz")
  {
    assert Lower("Tablet") == "tablet";
    assert Lower("zzz") == "zzz";
    MissingFirstCharNotIncluded("tablet", "zzz");
  }

  /** Adding a "Tablet" to the sample catalog: it receives id 13, the
      unfiltered list shows it last (on page 3 at 5 records per page, on
      page 1 at 20), and the query "zzz" leaves it out. */
  lemma TabletScenario()
    ensures var tablet := Draft("Tablet", Finite(12000.0), "Electronics", Finite(10.0), "");
      var ps := WithInserted(InitialProducts, tablet);
      && ps[12] == Product(13, tablet)
      && Window(Filter(ps, ""), 3, 5) == ps[10..13]
      && Product(13, tablet) in Window(Filter(ps, ""), 1, 20)
      && Product(13, tablet) !in Filter(ps, "zzz")
  {
    var tablet := Draft("Tablet", Finite(12000.0), "Electronics", Finite(10.0), "");
    var ps := WithInserted(InitialProducts, tablet);
    InitialNextId();
    InsertAppendsFreshRecord(InitialProducts, tablet);
    FilterEmptyQuery(ps);
    ThirteenthOnLastPage(ps);
    TabletMissesZzz(Product(13, tablet));
    FilterMembership(ps, "zzz", Product(13, tablet));
  }

  ghost predicate HasId(ps: seq<Product>, id: int) {
    exists p :: p in ps && p.id == id
  }

  class ProductManager {
    /** The number conversions of the runtime: `parseFloat`, `parseInt` and
        `Number.prototype.toString`. */
    const parseFloat: string -> JsNumber
    const parseInt: string -> JsNumber
    const toText: JsNumber -> string

    var products: seq<Product>
    /** The raw text of the search box. */
    var searchTerm: string
    /** The query the list is filtered by, published when the search settles. */
    var debouncedSearch: string
    /** The record the dialog edits; `None` while adding. */
    var editing: Option<Product>
    var currentPage: int
    var itemsPerPage: int
    var form: FormData
    var formErrors: map<Field, string>

    ghost predicate Valid()
      reads this
    {
      && UniqueIds(products)
      && currentPage >= 1
      && itemsPerPage in PageSizes
      && (editing.Some? ==> HasId(products, editing.value.id))
    }

    /** `filteredProducts`. */
    function FilteredProducts(): (r: seq<Product>)
      reads this
      ensures forall p :: p in r ==> p in products
    {
      Filter(products, debouncedSearch)
    }

    /** `totalPages`. */
    function PageCount(): (n: nat)
      reads this
      requires itemsPerPage > 0
      ensures n == 0 <==> FilteredProducts() == []
    {
      TotalPagesIsCeiling(|FilteredProducts()|, itemsPerPage);
      TotalPages(|FilteredProducts()|, itemsPerPage)
    }

    /** `currentProducts`: the records shown on the current page. */
    function CurrentProducts(): seq<Product>
      reads this
    {
      Window(FilteredProducts(), currentPage, itemsPerPage)
    }

    constructor (parseFloat: string -> JsNumber, parseInt: string -> JsNumber, toText: JsNumber -> string)
      ensures Valid()
      ensures this.parseFloat == parseFloat && this.parseInt == parseInt && this.toText == toText
      ensures products == InitialProducts
      ensures searchTerm == "" && debouncedSearch == "" && editing == None
      ensures currentPage == 1 && itemsPerPage == InitialPageSize
      ensures form == BlankForm && formErrors == map[]
    {
      InitialIdsUnique();
      this.parseFloat, this.parseInt, this.toText := parseFloat, parseInt, toText;
      products := InitialProducts;
      searchTerm, debouncedSearch := "", "";
      editing := None;
      currentPage, itemsPerPage := 1, InitialPageSize;
      form, formErrors := BlankForm, map[];
    }

    /** Typing in the search box changes only the raw text. */
    method SetSearchTerm(text: string)
      requires Valid()
      modifies this`searchTerm
      ensures Valid()
      ensures searchTerm == text
    {
      searchTerm := text;
    }

    /** The debounce timer fires: the raw text becomes the query, back to page 1. */
    method Settle()
      requires Valid()
      modifies this`debouncedSearch, this`currentPage
      ensures Valid()
      ensures debouncedSearch == searchTerm && currentPage == 1
    {
      debouncedSearch := searchTerm;
      currentPage := 1;
    }

    /** The "previous" button. */
    method GoPrevious()
      requires Valid()
      modifies this`currentPage
      ensures Valid()
      ensures currentPage == PrevPage(old(currentPage))
    {
      currentPage := PrevPage(currentPage);
    }

    /** The "next" button, shown only while some record matches the query. */
    method GoNext()
      requires Valid() && FilteredProducts() != []
      modifies this`currentPage
      ensures Valid()
      ensures currentPage == NextPage(old(currentPage), PageCount())
      ensures 1 <= currentPage <= PageCount()
    {
      TotalPagesIsCeiling(|FilteredProducts()|, itemsPerPage);
      currentPage := NextPage(currentPage, PageCount());
    }

    /** One of the numbered page buttons, 1 to `PageCount()`. */
    method GoToPage(page: int)
      requires Valid() && 1 <= page <= PageCount()
      modifies this`currentPage
      ensures Valid()
      ensures currentPage == page
    {
      currentPage := page;
    }

    /** The page-size selector: the new size, back to page 1. */
    method SetPageSize(size: int)
      requires Valid() && size in PageSizes
      modifies this`itemsPerPage, this`currentPage
      ensures Valid()
      ensures itemsPerPage == size && currentPage == 1
    {
      itemsPerPage := size;
      currentPage := 1;
    }

    /** The "add" button: a blank form with no errors, editing nothing. */
    method OpenAdd()
      requires Valid()
      modifies this`editing, this`form, this`formErrors
      ensures Valid()
      ensures editing == None && form == BlankForm && formErrors == map[]
    {
      editing := None;
      form := BlankForm;
      formErrors := map[];
    }

    /** The edit button of a listed record: the form holds its fields. */
    method OpenEdit(p: Product)
      requires Valid() && p in CurrentProducts()
      modifies this`editing, this`form, this`formErrors
      ensures Valid()
      ensures editing == Some(p) && form == FromProduct(p, toText) && formErrors == map[]
    {
      var lo := WindowIsContiguous(FilteredProducts(), currentPage, itemsPerPage);
      assert p in FilteredProducts();
      editing := Some(p);
      form := FromProduct(p, toText);
      formErrors := map[];
    }

    /** `closeModal`, also the dialog's cancel: a blank form, no errors,
        editing nothing; the catalog is not touched. */
    method CloseModal()
      requires Valid()
      modifies this`editing, this`form, this`formErrors
      ensures Valid()
      ensures editing == None && form == BlankForm && formErrors == map[]
    {
      editing := None;
      form := BlankForm;
      formErrors := map[];
    }

    /** `handleInputChange`: field `f` takes the new text; a message shown for
        `f` is blanked, every other field and message stays as it was. */
    method EditField(f: Field, text: string)
      requires Valid()
      modifies this`form, this`formErrors
      ensures Valid()
      ensures form == old(form).Set(f, text)
      ensures formErrors.Keys == old(formErrors).Keys
      ensures forall g :: g in formErrors && g != f ==> formErrors[g] == old(formErrors)[g]
      ensures f in formErrors ==> formErrors[f] == ""
    {
      form := form.Set(f, text);
      if f in formErrors && formErrors[f] != "" {
        formErrors := formErrors[f := ""];
      }
    }

    /** `validateForm`: the form's errors are recorded, and the form is valid
        iff there are none. */
    method ValidateForm() returns (valid: bool)
      requires Valid()
      modifies this`formErrors
      ensures Valid()
      ensures formErrors == Errors(form, parseFloat)
      ensures valid <==> formErrors == map[]
    {
      var errors := CheckRules(form, parseFloat);
      formErrors := errors;
      valid := |errors.Keys| == 0;
    }

    /** Appends the draft as a new record with the next id. */
    method Insert(d: Draft)
      requires Valid()
      modifies this`products
      ensures Valid()
      ensures products == WithInserted(old(products), d)
    {
      InsertAppendsFreshRecord(products, d);
      assert forall p :: p in products ==> p in WithInserted(products, d);
      products := WithInserted(products, d);
    }

    /** Rewrites the record with id `id`, which is in the catalog, with the
        draft's fields: that one position changes and nothing else. */
    method Replace(id: int, d: Draft)
      requires Valid() && HasId(products, id)
      modifies this`products
      ensures Valid()
      ensures products == WithReplaced(old(products), id, d)
      ensures exists k :: 0 <= k < |old(products)| && old(products)[k].id == id &&
                products == old(products)[k := Product(id, d)]
    {
      var p :| p in products && p.id == id;
      var k :| 0 <= k < |products| && products[k] == p;
      ReplaceOnlyMatch(products, k, d);
      ReplaceKeepsShape(products, id, d);
      var r := WithReplaced(products, id, d);
      if editing.Some? {
        var q :| q in products && q.id == editing.value.id;
        var j :| 0 <= j < |products| && products[j] == q;
        assert r[j] in r;
      }
      products := r;
    }

    /** `handleSubmit`: an invalid form records its errors and changes nothing
        else; a valid one replaces the edited record or inserts a new one,
        then the dialog closes. The page is kept either way. */
    method Submit()
      requires Valid()
      modifies this
      ensures Valid()
      ensures var errors := old(Errors(form, parseFloat));
        if errors != map[] then
          && products == old(products) && formErrors == errors
          && form == old(form) && editing == old(editing)
        else
          && products == (if old(editing).Some?
                          then WithReplaced(old(products), old(editing).value.id, ToDraft(old(form), parseFloat, parseInt))
                          else WithInserted(old(products), ToDraft(old(form), parseFloat, parseInt)))
          && form == BlankForm && formErrors == map[] && editing == None
      ensures searchTerm == old(searchTerm) && debouncedSearch == old(debouncedSearch)
      ensures currentPage == old(currentPage) && itemsPerPage == old(itemsPerPage)
    {
      var valid := ValidateForm();
      if !valid {
        return;
      }
      var d := ToDraft(form, parseFloat, parseInt);
      if editing.Some? {
        Replace(editing.value.id, d);
      } else {
        Insert(d);
      }
      CloseModal();
    }
  }
}
