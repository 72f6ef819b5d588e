/** What the storage engine contributes to every repository: a table is a map
    from primary key to row, and a `SELECT ... WHERE ... ORDER BY ...` returns
    every row the WHERE clause accepts, each once, in ORDER BY order. Rows that
    tie on the ORDER BY key come back in an unspecified order, so the listing
    is a method that may pick any of the admissible orders. */
module Tables {

  /** Every row is stored under its own primary key. */
  ghost predicate Keyed<R>(rows: map<string, R>, idOf: R -> string) {
    forall id :: id in rows ==> idOf(rows[id]) == id
  }

  /** An ORDER BY clause: any two rows are comparable and the order is transitive. */
  ghost predicate TotalPreorder<R(!new)>(before: (R, R) -> bool) {
    && (forall a, b :: before(a, b) || before(b, a))
    && (forall a, b, c :: before(a, b) && before(b, c) ==> before(a, c))
  }

  /** `rs` is an admissible answer to `SELECT * FROM rows WHERE keep ORDER BY before`:
      only kept rows, every kept row, none twice, in order. */
  ghost predicate IsListing<R>(rows: map<string, R>, idOf: R -> string, keep: R -> bool,
                               before: (R, R) -> bool, rs: seq<R>)
  {
    && (forall i :: 0 <= i < |rs| ==> idOf(rs[i]) in rows && rows[idOf(rs[i])] == rs[i] && keep(rs[i]))
    && (forall id :: id in rows && keep(rows[id]) ==> rows[id] in rs)
    && (forall i, j :: 0 <= i < j < |rs| ==> idOf(rs[i]) != idOf(rs[j]))
    && (forall i, j :: 0 <= i < j < |rs| ==> before(rs[i], rs[j]))
  }

  /** A non-empty set of keys always holds a row that no other row precedes. */
  lemma {:induction false} LeastExists<R(!new)>(s: set<string>, rows: map<string, R>, before: (R, R) -> bool)
    requires s != {} && s <= rows.Keys
    requires TotalPreorder(before)
    ensures exists x :: x in s && forall y :: y in s ==> before(rows[x], rows[y])
  {
    var z :| z in s;
    if s == {z} {
      assert before(rows[z], rows[z]);
      assert forall y :: y in s ==> y == z;
    } else {
      var s' := s - {z};
      LeastExists(s', rows, before);
      var m :| m in s' && forall y :: y in s' ==> before(rows[m], rows[y]);
      if before(rows[z], rows[m]) {
        assert forall y :: y in s ==> before(rows[z], rows[y]);
      } else {
        assert before(rows[m], rows[z]);
        assert forall y :: y in s ==> before(rows[m], rows[y]);
      }
    }
  }

  /** The storage engine's filtered, ordered scan. */
  method SelectOrdered<R(!new)>(rows: map<string, R>, idOf: R -> string, keep: R -> bool, before: (R, R) -> bool)
    returns (rs: seq<R>)
    requires Keyed(rows, idOf)
    requires TotalPreorder(before)
    ensures IsListing(rows, idOf, keep, before, rs)
  {
    var rest := set id | id in rows && keep(rows[id]);
    rs := [];
    while rest != {}
      invariant rest <= rows.Keys
      invariant forall id :: id in rest ==> keep(rows[id])
      invariant forall i :: 0 <= i < |rs| ==>
        idOf(rs[i]) in rows && rows[idOf(rs[i])] == rs[i] && keep(rs[i]) && idOf(rs[i]) !in rest
      invariant forall id :: id in rows && keep(rows[id]) && id !in rest ==> rows[id] in rs
      invariant forall i, j :: 0 <= i < j < |rs| ==> idOf(rs[i]) != idOf(rs[j])
      invariant forall i, j :: 0 <= i < j < |rs| ==> before(rs[i], rs[j])
      invariant forall i, id :: 0 <= i < |rs| && id in rest ==> before(rs[i], rows[id])
      decreases rest
    {
      LeastExists(rest, rows, before);
      var x :| x in rest && forall y :: y in rest ==> before(rows[x], rows[y]);
      rs := rs + [rows[x]];
      rest := rest - {x};
    }
  }
}
