/** The `categories` endpoints (src/handlers/category.rs): the table has no owner
    column, so every caller sees and may change every category; the statements match
    on `id` alone and every storage failure is a 500. */
module CategoryHandlers {
  import opened Common
  import opened CategoryModel
  import Tables

  /** A stored `categories` row; `category_type` is kept as the text in the column. */
  datatype CategoryRow = CategoryRow(id: string, name: string, categoryType: string, icon: string,
                                     color: string, isDefault: bool, createdAt: Time)

  /** The row an `INSERT` of a category writes. */
  function ToRow(c: Category): CategoryRow {
    CategoryRow(c.id, c.name, TypeColumn(c.categoryType), c.icon, c.color, c.isDefault, c.createdAt)
  }

  /** Reading a row back as a `Category`, which fails on an unknown type name. */
  function FromRow(r: CategoryRow): (c: Option<Category>)
    ensures c.Some? <==> r.categoryType in ["income", "expense"]
  {
    match DecodeCategoryType(r.categoryType)
    case Some(t) => Some(Category(r.id, r.name, t, r.icon, r.color, r.isDefault, r.createdAt))
    case None => None
  }

  /** Writing then reading gives the category back, and a readable row is exactly
      what writing its reading gives. */
  lemma RowRoundTrip(c: Category, r: CategoryRow)
    ensures FromRow(ToRow(c)) == Some(c)
    ensures FromRow(r).Some? ==> ToRow(FromRow(r).value) == r
  {
    TypeColumnRoundTrip(c.categoryType);
    if FromRow(r).Some? {
      TypeColumnRoundTrip(FromRow(r).value.categoryType);
    }
  }

  /** `UPDATE categories SET col = COALESCE(?, col), ... WHERE id = ?`: five fields can
      be replaced and nothing is stamped. */
  function Patched(r: CategoryRow, p: UpdateCategoryRequest): (q: CategoryRow)
    ensures q.id == r.id && q.createdAt == r.createdAt
    ensures q.name == (if p.name.Some? then p.name.value else r.name)
    ensures q.categoryType == (if p.categoryType.Some? then TypeColumn(p.categoryType.value) else r.categoryType)
    ensures q.icon == (if p.icon.Some? then p.icon.value else r.icon)
    ensures q.color == (if p.color.Some? then p.color.value else r.color)
    ensures q.isDefault == (if p.isDefault.Some? then p.isDefault.value else r.isDefault)
  {
    var column := if p.categoryType.Some? then Some(TypeColumn(p.categoryType.value)) else None;
    r.(name := p.name.GetOr(r.name), categoryType := column.GetOr(r.categoryType), icon := p.icon.GetOr(r.icon),
       color := p.color.GetOr(r.color), isDefault := p.isDefault.GetOr(r.isDefault))
  }

  const NoChange := UpdateCategoryRequest(None, None, None, None, None)

  /** With no timestamp to stamp, an update that supplies no field changes nothing at all. */
  lemma EmptyPatchChangesNothing(r: CategoryRow)
    ensures Patched(r, NoChange) == r
  {
  }

  /** Sending the same update twice leaves what sending it once did. */
  lemma PatchIdempotent(r: CategoryRow, p: UpdateCategoryRequest)
    ensures Patched(Patched(r, p), p) == Patched(r, p)
  {
  }

  /** Updating a readable row reads back as the category with the supplied fields replaced. */
  lemma PatchedReadsBack(r: CategoryRow, p: UpdateCategoryRequest)
    requires FromRow(r).Some?
    ensures FromRow(Patched(r, p)) ==
            Some(FromRow(r).value.(name := p.name.GetOr(r.name),
                                   categoryType := p.categoryType.GetOr(FromRow(r).value.categoryType),
                                   icon := p.icon.GetOr(r.icon), color := p.color.GetOr(r.color),
                                   isDefault := p.isDefault.GetOr(r.isDefault)))
  {
    if p.categoryType.Some? {
      TypeColumnRoundTrip(p.categoryType.value);
    }
  }

  function IdOf(r: CategoryRow): string { r.id }

  /** No `WHERE` clause. */
  function Everything(r: CategoryRow): bool { true }

  /** `ORDER BY is_default DESC, created_at ASC` */
  predicate DefaultsThenOldest(a: CategoryRow, b: CategoryRow) {
    (a.isDefault && !b.isDefault) || (a.isDefault == b.isDefault && a.createdAt <= b.createdAt)
  }

  lemma DefaultsThenOldestIsOrder()
    ensures Tables.TotalPreorder(DefaultsThenOldest)
  {
  }

  /** In any listing, no non-default category comes before a default one, and within
      each group the older category comes first. */
  lemma DefaultsListedFirst(rows: map<string, CategoryRow>, rs: seq<CategoryRow>, i: int, j: int)
    requires Tables.IsListing(rows, IdOf, Everything, DefaultsThenOldest, rs)
    requires 0 <= i < j < |rs|
    ensures rs[j].isDefault ==> rs[i].isDefault
    ensures rs[i].isDefault == rs[j].isDefault ==> rs[i].createdAt <= rs[j].createdAt
  {
    assert DefaultsThenOldest(rs[i], rs[j]);
  }

  /** The `categories` table, keyed by `id`. */
  class CategoryTable {
    var rows: map<string, CategoryRow>

    /** Rows sit under their own id, and every stored type name reads back. */
    ghost predicate Valid()
      reads this
    {
      forall id :: id in rows ==> rows[id].id == id && FromRow(rows[id]).Some?
    }

    constructor ()
      ensures Valid() && rows == map[]
    {
      rows := map[];
    }

    /** `get_category`: the row with that id; 404 when there is none. */
    function Get(id: string, dbError: bool): (r: Outcome<CategoryRow>)
      requires Valid()
      reads this
      ensures r.Success? <==> !dbError && id in rows
      ensures r.Success? ==> r.value == rows[id] && r.value.id == id
      ensures r.Failure? ==> r.status == (if dbError then Internal else NotFound)
    {
      if dbError then Failure(Internal)
      else if id in rows then Success(rows[id])
      else Failure(NotFound)
    }

    /** `create_category`: inserts the constructed category under its fresh id;
        any failure is a 500 that leaves the table alone. */
    method Create(req: CreateCategoryRequest, freshId: string, now: Time, dbError: bool)
      returns (r: Outcome<Category>)
      requires Valid()
      modifies this
      ensures Valid()
      ensures var c := NewCategory(req, freshId, now);
              r == (if dbError || c.id in old(rows) then Failure(Internal) else Success(c))
      ensures r.Success? ==> rows == old(rows)[r.value.id := ToRow(r.value)]
      ensures r.Failure? ==> rows == old(rows)
      ensures r.Success? ==> Get(r.value.id, false) == Success(ToRow(r.value)) &&
                             FromRow(rows[r.value.id]) == Some(r.value)
    {
      var c := NewCategory(req, freshId, now);
      if dbError || c.id in rows {
        r := Failure(Internal);
      } else {
        RowRoundTrip(c, ToRow(c));
        rows := rows[c.id := ToRow(c)];
        r := Success(c);
      }
    }

    /** `get_categories`: every category, defaults first, oldest first within each group. */
    method List(dbError: bool) returns (r: Outcome<seq<CategoryRow>>)
      requires Valid()
      ensures r.Failure? <==> dbError
      ensures r.Failure? ==> r.status == Internal
      ensures r.Success? ==> Tables.IsListing(rows, IdOf, Everything, DefaultsThenOldest, r.value)
    {
      if dbError {
        return Failure(Internal);
      }
      DefaultsThenOldestIsOrder();
      var rs := Tables.SelectOrdered(rows, IdOf, Everything, DefaultsThenOldest);
      r := Success(rs);
    }

    /** `update_category`: merges the supplied fields into the row with that id;
        404 and no change when there is none. */
    method Update(id: string, p: UpdateCategoryRequest, dbError: bool) returns (r: Outcome<string>)
      requires Valid()
      modifies this
      ensures Valid()
      ensures r.Success? <==> !dbError && id in old(rows)
      ensures r.Success? ==> r.value == "Category updated successfully"
      ensures r.Failure? ==> r.status == (if dbError then Internal else NotFound) && rows == old(rows)
      ensures r.Success? ==> rows == old(rows)[id := Patched(old(rows)[id], p)]
    {
      if dbError {
        r := Failure(Internal);
      } else if id in rows {
        PatchedReadsBack(rows[id], p);
        rows := rows[id := Patched(rows[id], p)];
        r := Success("Category updated successfully");
      } else {
        r := Failure(NotFound);
      }
    }

    /** `delete_category`: removes the row with that id and nothing else; 404 when there is none. */
    method Delete(id: string, dbError: bool) returns (r: Outcome<string>)
      requires Valid()
      modifies this
      ensures Valid()
      ensures r.Success? <==> !dbError && id in old(rows)
      ensures r.Success? ==> r.value == "Category deleted successfully" && rows == old(rows) - {id}
      ensures r.Failure? ==> r.status == (if dbError then Internal else NotFound) && rows == old(rows)
      ensures !dbError ==> Get(id, false) == Failure(NotFound)
    {
      if dbError {
        r := Failure(Internal);
      } else if id in rows {
        rows := rows - {id};
        r := Success("Category deleted successfully");
      } else {
        r := Failure(NotFound);
      }
    }
  }
}
