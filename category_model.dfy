/** Transaction categories and the built-in default set (src/models/category.rs). */
module CategoryModel {
  import opened Common
  import TransactionModel

  datatype CategoryType = Income | Expense

  datatype Category = Category(id: string, name: string, categoryType: CategoryType, icon: string,
                               color: string, isDefault: bool, createdAt: Time)

  datatype CreateCategoryRequest = CreateCategoryRequest(name: string, categoryType: CategoryType, icon: string,
                                                         color: string, isDefault: Option<bool>)

  datatype UpdateCategoryRequest = UpdateCategoryRequest(name: Option<string>, categoryType: Option<CategoryType>,
                                                         icon: Option<string>, color: Option<string>,
                                                         isDefault: Option<bool>)

  /** `Category::new`: always a fresh id; not a default category unless the request says so. */
  function NewCategory(req: CreateCategoryRequest, freshId: string, now: Time): (c: Category)
    ensures c.id == freshId && c.createdAt == now
    ensures c.isDefault == (req.isDefault.Some? && req.isDefault.value)
    ensures c.name == req.name && c.categoryType == req.categoryType && c.icon == req.icon && c.color == req.color
  {
    Category(freshId, req.name, req.categoryType, req.icon, req.color, req.isDefault.GetOr(false), now)
  }

  /** The variant name as Rust's `Debug` prints it. */
  function DebugName(t: CategoryType): string {
    match t
    case Income => "Income"
    case Expense => "Expense"
  }

  /** What the handlers store in the `category_type` column: the lower-cased `Debug` name. */
  function TypeColumn(t: CategoryType): string {
    LowerAscii(DebugName(t))
  }

  /** Decoding the stored column (the enum's lower-case renames). */
  function DecodeCategoryType(s: string): (r: Option<CategoryType>)
    ensures r.Some? ==> s in ["income", "expense"]
  {
    if s == "income" then Some(Income) else if s == "expense" then Some(Expense) else None
  }

  /** The stored type is "income" or "expense" and reads back as the variant written. */
  lemma TypeColumnRoundTrip(t: CategoryType)
    ensures TypeColumn(t) == (if t == Income then "income" else "expense")
    ensures DecodeCategoryType(TypeColumn(t)) == Some(t)
  {
    var s := TypeColumn(t);
    if t == Income {
      assert s == "income" by { assert |s| == 6 && forall i :: 0 <= i < 6 ==> s[i] == "income"[i]; }
    } else {
      assert s == "expense" by { assert |s| == 7 && forall i :: 0 <= i < 7 ==> s[i] == "expense"[i]; }
    }
  }

  // ---------------------------------------------------------------------------
  // Default categories. Each entry gets its own fresh id and clock reading, passed in.

  function Preset(name: string, t: CategoryType, icon: string, color: string, id: string, at: Time): Category {
    Category(id, name, t, icon, color, true, at)
  }

  predicate AllPresets(cs: seq<Category>, t: CategoryType, ids: seq<string>, stamps: seq<Time>)
    requires |ids| == |cs| == |stamps|
  {
    forall i :: 0 <= i < |cs| ==> cs[i].isDefault && cs[i].categoryType == t && cs[i].id == ids[i] && cs[i].createdAt == stamps[i]
  }

  function IncomeDefaults(ids: seq<string>, stamps: seq<Time>): (cs: seq<Category>)
    requires |ids| == 4 && |stamps| == 4
    ensures |cs| == 4 && AllPresets(cs, Income, ids, stamps)
  {
    [Preset("Salary", Income, "\U{1F4B0}", "#4CAF50", ids[0], stamps[0]),
     Preset("Business", Income, "\U{1F4BC}", "#2196F3", ids[1], stamps[1]),
     Preset("Investment", Income, "\U{1F4C8}", "#FF9800", ids[2], stamps[2]),
     Preset("Gift", Income, "\U{1F381}", "#E91E63", ids[3], stamps[3])]
  }

  function ExpenseDefaults(ids: seq<string>, stamps: seq<Time>): (cs: seq<Category>)
    requires |ids| == 6 && |stamps| == 6
    ensures |cs| == 6 && AllPresets(cs, Expense, ids, stamps)
  {
    [Preset("Food", Expense, "\U{1F354}", "#FF5722", ids[0], stamps[0]),
     Preset("Transportation", Expense, "\U{1F697}", "#607D8B", ids[1], stamps[1]),
     Preset("Shopping", Expense, "\U{1F6CD}\U{FE0F}", "#9C27B0", ids[2], stamps[2]),
     Preset("Entertainment", Expense, "\U{1F3AC}", "#673AB7", ids[3], stamps[3]),
     Preset("Bills", Expense, "\U{1F4A1}", "#795548", ids[4], stamps[4]),
     Preset("Medical", Expense, "\U{2695}\U{FE0F}", "#F44336", ids[5], stamps[5])]
  }

  /** The income presets followed by the expense presets. */
  function AllDefaults(ids: seq<string>, stamps: seq<Time>): (cs: seq<Category>)
    requires |ids| == 10 && |stamps| == 10
    ensures |cs| == 10 && forall i :: 0 <= i < 10 ==> cs[i].isDefault && cs[i].id == ids[i]
    ensures forall i :: 0 <= i < 4 ==> cs[i].categoryType == Income
    ensures forall i :: 4 <= i < 10 ==> cs[i].categoryType == Expense
  {
    IncomeDefaults(ids[..4], stamps[..4]) + ExpenseDefaults(ids[4..], stamps[4..])
  }

  /** The preset names in the order the presets are created. */
  function PresetNames(): seq<string> {
    ["Salary", "Business", "Investment", "Gift",
     "Food", "Transportation", "Shopping", "Entertainment", "Bills", "Medical"]
  }

  /** The presets carry exactly those names, whatever ids and stamps they were given. */
  lemma DefaultsArePresetNames(ids: seq<string>, stamps: seq<Time>)
    requires |ids| == 10 && |stamps| == 10
    ensures forall i :: 0 <= i < 10 ==> AllDefaults(ids, stamps)[i].name == PresetNames()[i]
  {
    var cs := AllDefaults(ids, stamps);
    assert cs[..4] == IncomeDefaults(ids[..4], stamps[..4]);
    assert cs[4..] == ExpenseDefaults(ids[4..], stamps[4..]);
    forall i | 4 <= i < 10
      ensures cs[i].name == PresetNames()[i]
    {
      assert cs[i] == cs[4..][i - 4];
    }
  }

  /** Every preset is named after one of the fixed transaction categories of its own type,
      and no two presets share a name. */
  lemma PresetsAreTransactionCategories(ids: seq<string>, stamps: seq<Time>)
    requires |ids| == 10 && |stamps| == 10
    ensures forall i :: 0 <= i < 4 ==> AllDefaults(ids, stamps)[i].name in TransactionModel.IncomeCategoryNames()
    ensures forall i :: 4 <= i < 10 ==> AllDefaults(ids, stamps)[i].name in TransactionModel.ExpenseCategoryNames()
    ensures forall i, j :: 0 <= i < j < 10 ==> AllDefaults(ids, stamps)[i].name != AllDefaults(ids, stamps)[j].name
  {
    DefaultsArePresetNames(ids, stamps);
    var names := PresetNames();
    assert forall i :: 0 <= i < 4 ==> names[i] == TransactionModel.IncomeCategoryNames()[i];
    assert forall i :: 4 <= i < 10 ==> names[i] == TransactionModel.ExpenseCategoryNames()[i - 4];
    TransactionModel.CategoryNamesDistinct();
    forall i, j | 0 <= i < j < 10
      ensures names[i] != names[j]
    {
      if j < 4 {
        assert names[i] == TransactionModel.IncomeCategoryNames()[i];
      } else if 4 <= i {
        assert names[i] == TransactionModel.ExpenseCategoryNames()[i - 4];
      } else {
        assert names[i] in TransactionModel.IncomeCategoryNames();
      }
    }
  }
}
