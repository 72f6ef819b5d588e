/** The legacy `liabilities` endpoints (src/handlers/liability.rs): the statements
    match on `id` alone, and every storage failure, a taken id included, is a 500.
    The table has no columns for the historical flag or the account and transaction
    links, so those parts of a liability are lost when it is stored. */
module LiabilityHandlers {
  import opened Common
  import opened LiabilityModel
  import Tables

  /** A stored `liabilities` row: the columns the schema declares. */
  datatype LiabilityRow = LiabilityRow(id: string, userId: string, personName: string, amount: real,
                                       currency: string, dueDate: Time, isPaid: bool,
                                       description: Option<string>, createdAt: Time, updatedAt: Time)

  /** The row an `INSERT` of a liability writes. */
  function ToRow(l: Liability): LiabilityRow {
    LiabilityRow(l.id, l.userId, l.personName, l.amount, l.currency, l.dueDate, l.isPaid,
                 l.description, l.createdAt, l.updatedAt)
  }

  /** Storing forgets exactly the historical flag and the two links: two liabilities
      are stored alike if and only if they differ in nothing else. */
  lemma StoringForgetsOnlyLinks(a: Liability, b: Liability)
    ensures ToRow(a) == ToRow(b) <==>
            a.(isHistoricalEntry := b.isHistoricalEntry, accountId := b.accountId, transactionId := b.transactionId) == b
  {
  }

  /** `UPDATE liabilities SET col = COALESCE(?, col), ..., updated_at = ? WHERE id = ?`:
      six fields can be replaced, `description` never cleared, the row is restamped. */
  function Patched(r: LiabilityRow, p: UpdateLiabilityRequest, now: Time): (q: LiabilityRow)
    ensures q.id == r.id && q.userId == r.userId && q.createdAt == r.createdAt
    ensures q.updatedAt == now
    ensures q.personName == (if p.personName.Some? then p.personName.value else r.personName)
    ensures q.amount == (if p.amount.Some? then p.amount.value else r.amount)
    ensures q.currency == (if p.currency.Some? then p.currency.value else r.currency)
    ensures q.dueDate == (if p.dueDate.Some? then p.dueDate.value else r.dueDate)
    ensures q.isPaid == (if p.isPaid.Some? then p.isPaid.value else r.isPaid)
    ensures q.description == (if p.description.Some? then p.description else r.description)
  {
    r.(personName := p.personName.GetOr(r.personName), amount := p.amount.GetOr(r.amount),
       currency := p.currency.GetOr(r.currency), dueDate := p.dueDate.GetOr(r.dueDate),
       isPaid := p.isPaid.GetOr(r.isPaid), description := CoalesceNullable(p.description, r.description),
       updatedAt := now)
  }

  const NoChange := UpdateLiabilityRequest(None, None, None, None, None, None, None, None, None)

  /** An update that supplies no field only moves `updated_at`. */
  lemma EmptyPatchOnlyRestamps(r: LiabilityRow, now: Time)
    ensures Patched(r, NoChange, now) == r.(updatedAt := now)
  {
  }

  /** Sending the same update twice leaves what sending it once did (up to the stamp). */
  lemma PatchIdempotent(r: LiabilityRow, p: UpdateLiabilityRequest, t1: Time, t2: Time)
    ensures Patched(Patched(r, p, t1), p, t2) == Patched(r, p, t2)
  {
  }

  /** The historical flag and the links of an update request are accepted and ignored. */
  lemma LinkFieldsIgnored(r: LiabilityRow, p: UpdateLiabilityRequest, now: Time)
    ensures Patched(r, p, now) == Patched(r, p.(isHistoricalEntry := None, accountId := None, transactionId := None), now)
  {
  }

  function IdOf(r: LiabilityRow): string { r.id }

  /** No `WHERE` clause. */
  function Everything(r: LiabilityRow): bool { true }

  /** `ORDER BY due_date ASC` */
  predicate SoonestDueFirst(a: LiabilityRow, b: LiabilityRow) {
    a.dueDate <= b.dueDate
  }

  lemma SoonestDueFirstIsOrder()
    ensures Tables.TotalPreorder(SoonestDueFirst)
  {
  }

  /** The `liabilities` table, keyed by `id`. */
  class LiabilityTable {
    var rows: map<string, LiabilityRow>

    ghost predicate Valid()
      reads this
    {
      forall id :: id in rows ==> rows[id].id == id
    }

    constructor ()
      ensures Valid() && rows == map[]
    {
      rows := map[];
    }

    /** `get_liability`: the row with that id, whoever owns it; 404 when there is none. */
    function Get(id: string, dbError: bool): (r: Outcome<LiabilityRow>)
      requires Valid()
      reads this
      ensures r.Success? <==> !dbError && id in rows
      ensures r.Success? ==> r.value == rows[id] && r.value.id == id
      ensures r.Failure? ==> r.status == (if dbError then Internal else NotFound)
    {
      if dbError then Failure(Internal)
      else if id in rows then Success(rows[id])
      else Failure(NotFound)
    }

    /** `create_liability`: inserts the constructed liability and echoes all of it; any
        failure, a taken id included, is a 500 that leaves the table alone. */
    method Create(owner: string, req: CreateLiabilityRequest, freshId: string, now: Time, dbError: bool)
      returns (r: Outcome<Liability>)
      requires Valid()
      modifies this
      ensures Valid()
      ensures var l := NewLiability(req, owner, freshId, now);
              r == (if dbError || l.id in old(rows) then Failure(Internal) else Success(l))
      ensures r.Success? ==> rows == old(rows)[r.value.id := ToRow(r.value)]
      ensures r.Failure? ==> rows == old(rows)
      ensures r.Success? ==> Get(r.value.id, false) == Success(ToRow(r.value))
    {
      var l := NewLiability(req, owner, freshId, now);
      if dbError || l.id in rows {
        r := Failure(Internal);
      } else {
        rows := rows[l.id := ToRow(l)];
        r := Success(l);
      }
    }

    /** `get_liabilities`: every liability, whoever owns it, soonest due first. */
    method List(dbError: bool) returns (r: Outcome<seq<LiabilityRow>>)
      requires Valid()
      ensures r.Failure? <==> dbError
      ensures r.Failure? ==> r.status == Internal
      ensures r.Success? ==> Tables.IsListing(rows, IdOf, Everything, SoonestDueFirst, r.value)
    {
      if dbError {
        return Failure(Internal);
      }
      SoonestDueFirstIsOrder();
      var rs := Tables.SelectOrdered(rows, IdOf, Everything, SoonestDueFirst);
      r := Success(rs);
    }

    /** `update_liability`: merges the supplied fields into the row with that id and
        restamps it; 404 and no change when there is none. */
    method Update(id: string, p: UpdateLiabilityRequest, now: Time, dbError: bool) returns (r: Outcome<string>)
      requires Valid()
      modifies this
      ensures Valid()
      ensures r.Success? <==> !dbError && id in old(rows)
      ensures r.Success? ==> r.value == "Liability updated successfully"
      ensures r.Failure? ==> r.status == (if dbError then Internal else NotFound) && rows == old(rows)
      ensures r.Success? ==> rows == old(rows)[id := Patched(old(rows)[id], p, now)]
    {
      if dbError {
        r := Failure(Internal);
      } else if id in rows {
        rows := rows[id := Patched(rows[id], p, now)];
        r := Success("Liability updated successfully");
      } else {
        r := Failure(NotFound);
      }
    }

    /** `delete_liability`: removes the row with that id and nothing else; 404 when there is none. */
    method Delete(id: string, dbError: bool) returns (r: Outcome<string>)
      requires Valid()
      modifies this
      ensures Valid()
      ensures r.Success? <==> !dbError && id in old(rows)
      ensures r.Success? ==> r.value == "Liability deleted successfully" && rows == old(rows) - {id}
      ensures r.Failure? ==> r.status == (if dbError then Internal else NotFound) && rows == old(rows)
      ensures !dbError ==> Get(id, false) == Failure(NotFound)
    {
      if dbError {
        r := Failure(Internal);
      } else if id in rows {
        rows := rows - {id};
        r := Success("Liability deleted successfully");
      } else {
        r := Failure(NotFound);
      }
    }
  }
}
