/** The display-currency preference of the authenticated user (src/handlers/preference.rs):
    one row per user in `user_preferences`, read with a default and written by upsert. */
module PreferenceHandlers {
  import opened Common

  /** A JSON value, as the update handler receives its body. */
  datatype Json = Null | Bool(b: bool) | Number(n: real) | Str(s: string) | Array(items: seq<Json>)
                | Object(fields: map<string, Json>)

  /** `Value::get(key)`: the member of an object under `key`; nothing for any other value. */
  function Member(v: Json, key: string): (r: Option<Json>)
    ensures r.Some? <==> v.Object? && key in v.fields
    ensures r.Some? ==> r.value == v.fields[key]
  {
    if v.Object? && key in v.fields then Some(v.fields[key]) else None
  }

  /** The currency an update stores: the member "display_currency", or when that key is
      absent the member "displayCurrency", taken only if it is a string; "BDT" otherwise. */
  function ChosenCurrency(body: Json): string {
    var found := if Member(body, "display_currency").Some? then Member(body, "display_currency")
                 else Member(body, "displayCurrency");
    if found.Some? && found.value.Str? then found.value.s else DefaultCurrency
  }

  /** The four ways the key lookup can go. The snake-case key wins whenever it is present,
      even when its value is not a string: then the camel-case key is not consulted. */
  lemma ChosenCurrencyCases(body: Json)
    ensures Member(body, "display_currency").Some? && Member(body, "display_currency").value.Str? ==>
            ChosenCurrency(body) == Member(body, "display_currency").value.s
    ensures Member(body, "display_currency").Some? && !Member(body, "display_currency").value.Str? ==>
            ChosenCurrency(body) == "BDT"
    ensures Member(body, "display_currency").None? && Member(body, "displayCurrency").Some? &&
            Member(body, "displayCurrency").value.Str? ==>
            ChosenCurrency(body) == Member(body, "displayCurrency").value.s
    ensures Member(body, "display_currency").None? && Member(body, "displayCurrency").None? ==>
            ChosenCurrency(body) == "BDT"
    ensures !body.Object? ==> ChosenCurrency(body) == "BDT"
  {
  }

  /** A stored `user_preferences` row. */
  datatype PreferenceRow = PreferenceRow(userId: string, displayCurrency: string, updatedAt: Time)

  /** The `data` object of both responses; `updatedAt` is null when nothing is stored. */
  datatype Preference = Preference(displayCurrency: string, updatedAt: Option<Time>)

  /** The `user_preferences` table, keyed by `user_id`. */
  class PreferenceTable {
    var rows: map<string, PreferenceRow>

    ghost predicate Valid()
      reads this
    {
      forall u :: u in rows ==> rows[u].userId == u
    }

    constructor ()
      ensures Valid() && rows == map[]
    {
      rows := map[];
    }

    /** `get_preferences`: the principal's stored preference, or "BDT" with a null
        stamp when there is none; the table is only read. */
    function Get(principal: string, dbError: bool): (r: Outcome<Preference>)
      requires Valid()
      reads this
      ensures r.Failure? <==> dbError
      ensures r.Failure? ==> r.status == Internal
      ensures r.Success? && principal in rows ==>
              r.value == Preference(rows[principal].displayCurrency, Some(rows[principal].updatedAt))
      ensures r.Success? && principal !in rows ==> r.value == Preference("BDT", None)
      ensures r.Success? ==> (r.value.updatedAt.None? <==> principal !in rows)
    {
      if dbError then Failure(Internal)
      else if principal in rows then
        Success(Preference(rows[principal].displayCurrency, Some(rows[principal].updatedAt)))
      else Success(Preference(DefaultCurrency, None))
    }

    /** `update_preferences`: inserts or overwrites the principal's one row with the chosen
        currency stamped `now`, echoes what it stored, and leaves every other user's row alone. */
    method Update(principal: string, body: Json, now: Time, dbError: bool) returns (r: Outcome<Preference>)
      requires Valid()
      modifies this
      ensures Valid()
      ensures r.Failure? <==> dbError
      ensures r.Failure? ==> r.status == Internal && rows == old(rows)
      ensures r.Success? ==> r.value == Preference(ChosenCurrency(body), Some(now))
      ensures r.Success? ==> rows == old(rows)[principal := PreferenceRow(principal, ChosenCurrency(body), now)]
      ensures r.Success? ==> Get(principal, false) == r
      ensures forall u :: u != principal ==> (u in rows <==> u in old(rows)) && (u in rows ==> rows[u] == old(rows)[u])
    {
      if dbError {
        r := Failure(Internal);
      } else {
        var currency := ChosenCurrency(body);
        rows := rows[principal := PreferenceRow(principal, currency, now)];
        r := Success(Preference(currency, Some(now)));
      }
    }
  }
}
