/** The `savings_goals` endpoints (src/handlers/savings_goal.rs): scoped to the
    authenticated principal like budgets, listed by target date. */
module SavingsGoalHandlers {
  import opened Common
  import opened SavingsGoalModel
  import Tables

  /** `UPDATE savings_goals SET col = COALESCE(?, col), ..., updated_at = ?`. The progress
      fields (`current_amount`, `is_completed`) can be set here; the nullable
      `description` and `account_id` can be replaced but never cleared. */
  function Patched(g: SavingsGoal, p: UpdateSavingsGoalRequest, now: Time): (r: SavingsGoal)
    ensures r.id == g.id && r.userId == g.userId && r.createdAt == g.createdAt
    ensures r.updatedAt == now
    ensures r.name == (if p.name.Some? then p.name.value else g.name)
    ensures r.targetAmount == (if p.targetAmount.Some? then p.targetAmount.value else g.targetAmount)
    ensures r.currentAmount == (if p.currentAmount.Some? then p.currentAmount.value else g.currentAmount)
    ensures r.currency == (if p.currency.Some? then p.currency.value else g.currency)
    ensures r.targetDate == (if p.targetDate.Some? then p.targetDate.value else g.targetDate)
    ensures r.description == (if p.description.Some? then p.description else g.description)
    ensures r.accountId == (if p.accountId.Some? then p.accountId else g.accountId)
    ensures r.priority == (if p.priority.Some? then p.priority.value else g.priority)
    ensures r.isCompleted == (if p.isCompleted.Some? then p.isCompleted.value else g.isCompleted)
  {
    g.(name := p.name.GetOr(g.name), targetAmount := p.targetAmount.GetOr(g.targetAmount),
       currentAmount := p.currentAmount.GetOr(g.currentAmount), currency := p.currency.GetOr(g.currency),
       targetDate := p.targetDate.GetOr(g.targetDate),
       description := CoalesceNullable(p.description, g.description),
       accountId := CoalesceNullable(p.accountId, g.accountId),
       priority := p.priority.GetOr(g.priority), isCompleted := p.isCompleted.GetOr(g.isCompleted),
       updatedAt := now)
  }

  const NoChange := UpdateSavingsGoalRequest(None, None, None, None, None, None, None, None, None)

  /** An update that supplies no field only moves `updated_at`. */
  lemma EmptyPatchOnlyRestamps(g: SavingsGoal, now: Time)
    ensures Patched(g, NoChange, now) == g.(updatedAt := now)
  {
  }

  /** Sending the same update twice leaves what sending it once did (up to the stamp). */
  lemma PatchIdempotent(g: SavingsGoal, p: UpdateSavingsGoalRequest, t1: Time, t2: Time)
    ensures Patched(Patched(g, p, t1), p, t2) == Patched(g, p, t2)
  {
  }

  /** Once a goal has a description or a linked account, no update can remove it. */
  lemma NullableNeverCleared(g: SavingsGoal, p: UpdateSavingsGoalRequest, now: Time)
    ensures g.description.Some? ==> Patched(g, p, now).description.Some?
    ensures g.accountId.Some? ==> Patched(g, p, now).accountId.Some?
  {
  }

  function IdOf(g: SavingsGoal): string { g.id }

  /** `WHERE user_id = ?` */
  function OwnedBy(principal: string): SavingsGoal -> bool {
    (g: SavingsGoal) => g.userId == principal
  }

  /** `ORDER BY target_date ASC` */
  predicate SoonestFirst(a: SavingsGoal, b: SavingsGoal) {
    a.targetDate <= b.targetDate
  }

  lemma SoonestFirstIsOrder()
    ensures Tables.TotalPreorder(SoonestFirst)
  {
  }

  /** The `savings_goals` table, keyed by `id`. */
  class SavingsGoalTable {
    var rows: map<string, SavingsGoal>

    ghost predicate Valid()
      reads this
    {
      forall id :: id in rows ==> rows[id].id == id
    }

    constructor ()
      ensures Valid() && rows == map[]
    {
      rows := map[];
    }

    /** `WHERE id = ? AND user_id = ?` matches a row. */
    predicate Owns(principal: string, id: string)
      reads this
    {
      id in rows && rows[id].userId == principal
    }

    /** `get_savings_goal`: the row only when it exists and belongs to the principal; 404 otherwise. */
    function Get(principal: string, id: string, dbError: bool): (r: Outcome<SavingsGoal>)
      requires Valid()
      reads this
      ensures r.Success? <==> !dbError && id in rows && rows[id].userId == principal
      ensures r.Success? ==> r.value == rows[id] && r.value.id == id
      ensures r.Failure? ==> r.status == (if dbError then Internal else NotFound)
    {
      if dbError then Failure(Internal)
      else if Owns(principal, id) then Success(rows[id])
      else Failure(NotFound)
    }

    /** `create_savings_goal`: the row built from the request, owned by the principal whatever
        the body says; a taken id is a 409 and leaves the table alone, whoever owns it. */
    method Create(principal: string, req: CreateSavingsGoalRequest, freshId: string, now: Time, dbError: bool)
      returns (r: Outcome<SavingsGoal>)
      requires Valid()
      modifies this
      ensures Valid()
      ensures var g := NewSavingsGoal(req, principal, freshId, now);
              r == (if dbError then Failure(Internal)
                    else if g.id in old(rows) then Failure(Conflict)
                    else Success(g))
      ensures r.Success? ==> rows == old(rows)[r.value.id := r.value]
      ensures r.Failure? ==> rows == old(rows)
      ensures r.Success? ==> r.value.userId == principal && Get(principal, r.value.id, false) == Success(r.value)
    {
      var g := NewSavingsGoal(req, principal, freshId, now);
      if dbError {
        r := Failure(Internal);
      } else if g.id in rows {
        r := Failure(Conflict);
      } else {
        rows := rows[g.id := g];
        r := Success(g);
      }
    }

    /** `get_savings_goals`: exactly the principal's goals, soonest target date first; none is still a success. */
    method List(principal: string, dbError: bool) returns (r: Outcome<seq<SavingsGoal>>)
      requires Valid()
      ensures r.Failure? <==> dbError
      ensures r.Failure? ==> r.status == Internal
      ensures r.Success? ==> Tables.IsListing(rows, IdOf, OwnedBy(principal), SoonestFirst, r.value)
    {
      if dbError {
        return Failure(Internal);
      }
      SoonestFirstIsOrder();
      var rs := Tables.SelectOrdered(rows, IdOf, OwnedBy(principal), SoonestFirst);
      r := Success(rs);
    }

    /** `update_savings_goal`: merges the supplied fields into the principal's row and restamps it;
        404 and no change when no owned row has that id. No other row is touched. */
    method Update(principal: string, id: string, p: UpdateSavingsGoalRequest, now: Time, dbError: bool)
      returns (r: Outcome<string>)
      requires Valid()
      modifies this
      ensures Valid()
      ensures r.Success? <==> !dbError && old(Owns(principal, id))
      ensures r.Success? ==> r.value == "Savings goal updated successfully"
      ensures r.Failure? ==> r.status == (if dbError then Internal else NotFound) && rows == old(rows)
      ensures r.Success? ==> rows == old(rows)[id := Patched(old(rows)[id], p, now)]
      ensures r.Success? ==> Get(principal, id, false) == Success(Patched(old(rows)[id], p, now))
    {
      if dbError {
        r := Failure(Internal);
      } else if Owns(principal, id) {
        rows := rows[id := Patched(rows[id], p, now)];
        r := Success("Savings goal updated successfully");
      } else {
        r := Failure(NotFound);
      }
    }

    /** `delete_savings_goal`: removes the principal's row with that id and nothing else;
        404 and no change when there is none. */
    method Delete(principal: string, id: string, dbError: bool) returns (r: Outcome<string>)
      requires Valid()
      modifies this
      ensures Valid()
      ensures r.Success? <==> !dbError && old(Owns(principal, id))
      ensures r.Success? ==> r.value == "Savings goal deleted successfully" && rows == old(rows) - {id}
      ensures r.Failure? ==> r.status == (if dbError then Internal else NotFound) && rows == old(rows)
      ensures !dbError ==> Get(principal, id, false) == Failure(NotFound)
    {
      if dbError {
        r := Failure(Internal);
      } else if Owns(principal, id) {
        rows := rows - {id};
        r := Success("Savings goal deleted successfully");
      } else {
        r := Failure(NotFound);
      }
    }
  }
}
