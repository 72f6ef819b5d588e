/** The legacy `loans` endpoints (src/handlers/loan.rs): creation is switched off,
    the other statements match on `id` alone, and every storage failure is a 500. */
module LoanHandlers {
  import opened Common
  import opened LoanModel
  import Tables

  /** A stored `loans` row: the columns the schema declares, which leave out the
      historical flag and the account and transaction links of a `Loan`. */
  datatype LoanRow = LoanRow(id: string, userId: string, personName: string, amount: real,
                             currency: string, loanDate: Time, returnDate: Option<Time>, isReturned: bool,
                             description: Option<string>, createdAt: Time, updatedAt: Time)

  /** `UPDATE loans SET col = COALESCE(?, col), ..., updated_at = ? WHERE id = ?`:
      seven fields can be replaced, the nullable ones never cleared, the row is restamped. */
  function Patched(r: LoanRow, p: UpdateLoanRequest, now: Time): (q: LoanRow)
    ensures q.id == r.id && q.userId == r.userId && q.createdAt == r.createdAt
    ensures q.updatedAt == now
    ensures q.personName == (if p.personName.Some? then p.personName.value else r.personName)
    ensures q.amount == (if p.amount.Some? then p.amount.value else r.amount)
    ensures q.currency == (if p.currency.Some? then p.currency.value else r.currency)
    ensures q.loanDate == (if p.loanDate.Some? then p.loanDate.value else r.loanDate)
    ensures q.returnDate == (if p.returnDate.Some? then p.returnDate else r.returnDate)
    ensures q.isReturned == (if p.isReturned.Some? then p.isReturned.value else r.isReturned)
    ensures q.description == (if p.description.Some? then p.description else r.description)
  {
    r.(personName := p.personName.GetOr(r.personName), amount := p.amount.GetOr(r.amount),
       currency := p.currency.GetOr(r.currency), loanDate := p.loanDate.GetOr(r.loanDate),
       returnDate := CoalesceNullable(p.returnDate, r.returnDate), isReturned := p.isReturned.GetOr(r.isReturned),
       description := CoalesceNullable(p.description, r.description), updatedAt := now)
  }

  const NoChange := UpdateLoanRequest(None, None, None, None, None, None, None, None, None, None)

  /** An update that supplies no field only moves `updated_at`. */
  lemma EmptyPatchOnlyRestamps(r: LoanRow, now: Time)
    ensures Patched(r, NoChange, now) == r.(updatedAt := now)
  {
  }

  /** Sending the same update twice leaves what sending it once did (up to the stamp). */
  lemma PatchIdempotent(r: LoanRow, p: UpdateLoanRequest, t1: Time, t2: Time)
    ensures Patched(Patched(r, p, t1), p, t2) == Patched(r, p, t2)
  {
  }

  /** Once a loan has a return date or a description, no update can take it away. */
  lemma NullableNeverCleared(r: LoanRow, p: UpdateLoanRequest, now: Time)
    ensures r.returnDate.Some? ==> Patched(r, p, now).returnDate.Some?
    ensures r.description.Some? ==> Patched(r, p, now).description.Some?
  {
  }

  /** The historical flag and the links of an update request are accepted and ignored. */
  lemma LinkFieldsIgnored(r: LoanRow, p: UpdateLoanRequest, now: Time)
    ensures Patched(r, p, now) == Patched(r, p.(isHistoricalEntry := None, accountId := None, transactionId := None), now)
  {
  }

  function IdOf(r: LoanRow): string { r.id }

  /** No `WHERE` clause. */
  function Everything(r: LoanRow): bool { true }

  /** `ORDER BY loan_date DESC` */
  predicate LatestLoanFirst(a: LoanRow, b: LoanRow) {
    a.loanDate >= b.loanDate
  }

  lemma LatestLoanFirstIsOrder()
    ensures Tables.TotalPreorder(LatestLoanFirst)
  {
  }

  /** The `loans` table, keyed by `id`. */
  class LoanTable {
    var rows: map<string, LoanRow>

    ghost predicate Valid()
      reads this
    {
      forall id :: id in rows ==> rows[id].id == id
    }

    constructor ()
      ensures Valid() && rows == map[]
    {
      rows := map[];
    }

    /** `get_loan`: the row with that id, whoever owns it; 404 when there is none. */
    function Get(id: string, dbError: bool): (r: Outcome<LoanRow>)
      requires Valid()
      reads this
      ensures r.Success? <==> !dbError && id in rows
      ensures r.Success? ==> r.value == rows[id] && r.value.id == id
      ensures r.Failure? ==> r.status == (if dbError then Internal else NotFound)
    {
      if dbError then Failure(Internal)
      else if id in rows then Success(rows[id])
      else Failure(NotFound)
    }

    /** `create_loan`: disabled; whatever the request, a 501 and no row. */
    method Create(req: CreateLoanRequest) returns (r: Outcome<Loan>)
      requires Valid()
      ensures r.Failure? && r.status == NotImplemented && r.status.Code() == 501
    {
      r := Failure(NotImplemented);
    }

    /** `get_loans`: every loan, whoever owns it, latest loan date first. */
    method List(dbError: bool) returns (r: Outcome<seq<LoanRow>>)
      requires Valid()
      ensures r.Failure? <==> dbError
      ensures r.Failure? ==> r.status == Internal
      ensures r.Success? ==> Tables.IsListing(rows, IdOf, Everything, LatestLoanFirst, r.value)
    {
      if dbError {
        return Failure(Internal);
      }
      LatestLoanFirstIsOrder();
      var rs := Tables.SelectOrdered(rows, IdOf, Everything, LatestLoanFirst);
      r := Success(rs);
    }

    /** `update_loan`: merges the supplied fields into the row with that id and
        restamps it; 404 and no change when there is none. */
    method Update(id: string, p: UpdateLoanRequest, now: Time, dbError: bool) returns (r: Outcome<string>)
      requires Valid()
      modifies this
      ensures Valid()
      ensures r.Success? <==> !dbError && id in old(rows)
      ensures r.Success? ==> r.value == "Loan updated successfully"
      ensures r.Failure? ==> r.status == (if dbError then Internal else NotFound) && rows == old(rows)
      ensures r.Success? ==> rows == old(rows)[id := Patched(old(rows)[id], p, now)]
    {
      if dbError {
        r := Failure(Internal);
      } else if id in rows {
        rows := rows[id := Patched(rows[id], p, now)];
        r := Success("Loan updated successfully");
      } else {
        r := Failure(NotFound);
      }
    }

    /** `delete_loan`: removes the row with that id and nothing else; 404 when there is none. */
    method Delete(id: string, dbError: bool) returns (r: Outcome<string>)
      requires Valid()
      modifies this
      ensures Valid()
      ensures r.Success? <==> !dbError && id in old(rows)
      ensures r.Success? ==> r.value == "Loan deleted successfully" && rows == old(rows) - {id}
      ensures r.Failure? ==> r.status == (if dbError then Internal else NotFound) && rows == old(rows)
      ensures !dbError ==> Get(id, false) == Failure(NotFound)
    {
      if dbError {
        r := Failure(Internal);
      } else if id in rows {
        rows := rows - {id};
        r := Success("Loan deleted successfully");
      } else {
        r := Failure(NotFound);
      }
    }
  }
}
