/**
 * The quote store: one `quotes` table of rows (id, input, result, quoteName),
 * listed in full, added to with a duplicate-input check, and deleted from by id.
 *
 * The table is a sequence of rows in storage order. The SQL statements the
 * store issues are the functions CountInput, HasId and DeleteById on that
 * sequence; the class QuotesStore holds the table and changes it in place.
 */
module QuotesStoreDB {
  import opened Serialization

  datatype Option<T> = None | Some(value: T)

  /** Why `add` wrote nothing. */
  datatype StoreError =
    | DuplicateInput       // a row with the same serialized input exists
    | PrimaryKeyViolation  // the insert clashed with the PRIMARY KEY on `id`

  datatype Result<T> = Ok(value: T) | Err(error: StoreError)

  /** One row of the `quotes` table; every column is TEXT NOT NULL. */
  datatype Row = Row(id: string, input: string, result: string, quoteName: string)

  /** A quote as handed back to callers, input and result parsed from their text. */
  datatype SavedQuote<I, R> = SavedQuote(id: string, input: I, result: R, quoteName: string)

  /** The name given to a quote saved without one. */
  const DefaultQuoteName: string := "Untitled Quote"

  /**
   * The `entry.name || "Untitled Quote"` of `add`: the caller's name when it is
   * present and not empty (both absent and "" are falsy), the placeholder otherwise.
   */
  function ResolveName(name: Option<string>): (quoteName: string)
    ensures quoteName != ""
    ensures name.Some? && name.value != "" ==> quoteName == name.value
    ensures name.None? || name.value == "" ==> quoteName == DefaultQuoteName
  {
    match name
    case Some(n) => if n != "" then n else DefaultQuoteName
    case None => DefaultQuoteName
  }

  /** `SELECT COUNT(*) FROM quotes WHERE input = s`. */
  function CountInput(rows: seq<Row>, s: string): (c: nat)
    ensures c <= |rows|
    ensures c > 0 <==> exists k :: 0 <= k < |rows| && rows[k].input == s
  {
    if rows == [] then 0
    else
      var rest := CountInput(rows[1..], s);
      assert forall k :: 0 <= k < |rows[1..]| ==> rows[1..][k] == rows[k + 1];
      (if rows[0].input == s then 1 else 0) + rest
  }

  /** Some row of the table carries `id`. */
  predicate HasId(rows: seq<Row>, id: string) {
    exists k :: 0 <= k < |rows| && rows[k].id == id
  }

  /** `DELETE FROM quotes WHERE id = ?`: the table without the rows carrying `id`, the others in their order. */
  function DeleteById(rows: seq<Row>, id: string): (r: seq<Row>)
    ensures |r| <= |rows|
    ensures forall k :: 0 <= k < |r| ==> r[k].id != id
    ensures |r| < |rows| <==> HasId(rows, id)
    ensures !HasId(rows, id) ==> r == rows
  {
    if rows == [] then []
    else
      assert forall k :: 0 <= k < |rows[1..]| ==> rows[1..][k] == rows[k + 1];
      if rows[0].id == id then DeleteById(rows[1..], id)
      else [rows[0]] + DeleteById(rows[1..], id)
  }

  /** Deletion keeps exactly the rows whose id differs. */
  lemma {:induction false} DeleteKeepsOthers(rows: seq<Row>, id: string)
    ensures forall row :: row in DeleteById(rows, id) <==> row in rows && row.id != id
  {
    if rows != [] {
      DeleteKeepsOthers(rows[1..], id);
      assert rows == [rows[0]] + rows[1..];
    }
  }

  /** No two rows agree on `key`. */
  predicate Distinct(rows: seq<Row>, key: Row -> string) {
    forall i, j :: 0 <= i < j < |rows| ==> key(rows[i]) != key(rows[j])
  }

  function InputOf(row: Row): string { row.input }
  function IdOf(row: Row): string { row.id }

  /** No two rows hold the same serialized input. */
  predicate UniqueInputs(rows: seq<Row>) {
    Distinct(rows, InputOf)
  }

  /** No two rows hold the same id: the PRIMARY KEY constraint. */
  predicate UniqueIds(rows: seq<Row>) {
    Distinct(rows, IdOf)
  }

  /** Dropping the first row keeps rows distinct. */
  lemma TailKeepsDistinct(rows: seq<Row>, key: Row -> string)
    requires rows != []
    requires Distinct(rows, key)
    ensures Distinct(rows[1..], key)
  {
  }

  /** Deleting rows keeps rows distinct on any key. */
  lemma {:induction false} DeleteKeepsDistinct(rows: seq<Row>, id: string, key: Row -> string)
    requires Distinct(rows, key)
    ensures Distinct(DeleteById(rows, id), key)
  {
    if rows != [] {
      var tail := rows[1..];
      TailKeepsDistinct(rows, key);
      DeleteKeepsDistinct(tail, id, key);
      var t := DeleteById(tail, id);
      if rows[0].id != id {
        var r := DeleteById(rows, id);
        assert r == [rows[0]] + t;
        DeleteKeepsOthers(tail, id);
        forall j | 0 < j < |r| ensures key(r[0]) != key(r[j]) {
          assert r[j] == t[j - 1] && r[j] in tail;
          var m :| 0 <= m < |tail| && tail[m] == r[j];
          assert rows[m + 1] == r[j];
        }
      } else {
        assert DeleteById(rows, id) == t;
      }
    }
  }

  /**
   * Appending a row whose input text no row holds (the COUNT query found
   * nothing) and whose id no row holds (the PRIMARY KEY let it in) keeps both
   * uniqueness invariants.
   */
  lemma InsertKeepsUniqueness(rows: seq<Row>, row: Row)
    requires UniqueInputs(rows) && UniqueIds(rows)
    requires CountInput(rows, row.input) == 0
    requires !HasId(rows, row.id)
    ensures UniqueInputs(rows + [row]) && UniqueIds(rows + [row])
  {
  }

  /** Splicing row k out of a sequence, seen from its tail. */
  lemma SpliceFromTail(rows: seq<Row>, k: nat)
    requires 0 < k < |rows|
    ensures [rows[0]] + (rows[1..][..k - 1] + rows[1..][k..]) == rows[..k] + rows[k + 1..]
  {
    assert rows[1..][..k - 1] == rows[1..k];
    assert rows[1..][k..] == rows[k + 1..];
    assert rows[..k] == [rows[0]] + rows[1..k];
  }

  /** With unique ids, deleting the id of row k removes that one row and keeps the rest in order. */
  lemma {:induction false} DeleteUniqueId(rows: seq<Row>, k: nat)
    requires UniqueIds(rows)
    requires k < |rows|
    ensures DeleteById(rows, rows[k].id) == rows[..k] + rows[k + 1..]
  {
    var id := rows[k].id;
    var tail := rows[1..];
    if k == 0 {
      assert !HasId(tail, id) by {
        forall m | 0 <= m < |tail| ensures tail[m].id != id {
          assert tail[m] == rows[m + 1];
        }
      }
      assert DeleteById(rows, id) == DeleteById(tail, id);
      assert rows[..0] + rows[1..] == tail;
    } else {
      TailKeepsDistinct(rows, IdOf);
      DeleteUniqueId(tail, k - 1);
      assert tail[k - 1] == rows[k];
      assert rows[0].id != id;
      assert DeleteById(rows, id) == [rows[0]] + DeleteById(tail, id);
      SpliceFromTail(rows, k);
    }
  }

  /** Deleting the id of a row just appended under a fresh id gives back the table before the append. */
  lemma {:induction false} DeleteAppended(rows: seq<Row>, row: Row)
    requires !HasId(rows, row.id)
    ensures DeleteById(rows + [row], row.id) == rows
  {
    if rows == [] {
      assert ([] + [row])[1..] == [];
    } else {
      var tail := rows[1..];
      assert (rows + [row])[1..] == tail + [row];
      assert !HasId(tail, row.id) by {
        assert forall m :: 0 <= m < |tail| ==> tail[m] == rows[m + 1];
      }
      DeleteAppended(tail, row);
      assert rows == [rows[0]] + tail;
    }
  }

  /**
   * When every stored input is serialized text and the codec round-trips,
   * the text comparison of `add` finds a duplicate exactly when some stored
   * row parses back to the very value being added.
   */
  lemma DuplicateIffSameValue<I(!new)>(c: Codec<I>, rows: seq<Row>, x: I)
    requires RoundTrips(c)
    requires forall k :: 0 <= k < |rows| ==> IsSerialized(c, rows[k].input)
    ensures CountInput(rows, c.stringify(x)) > 0 <==> exists k :: 0 <= k < |rows| && c.parse(rows[k].input) == x
  {
    if exists k :: 0 <= k < |rows| && c.parse(rows[k].input) == x {
      var k :| 0 <= k < |rows| && c.parse(rows[k].input) == x;
      assert rows[k].input == c.stringify(x);
    }
    if CountInput(rows, c.stringify(x)) > 0 {
      var k :| 0 <= k < |rows| && rows[k].input == c.stringify(x);
      assert c.parse(rows[k].input) == x;
    }
  }

  /**
   * The store. `rows` is the `quotes` table; the codecs stand for
   * JSON.stringify and JSON.parse on quote inputs and quote results.
   */
  class QuotesStore<I(!new), R(!new)> {
    const inputCodec: Codec<I>
    const resultCodec: Codec<R>
    var rows: seq<Row>

    /** Ids are a primary key, inputs are never stored twice, and every stored input is serialized text. */
    ghost predicate Valid()
      reads this
    {
      RoundTrips(inputCodec) && RoundTrips(resultCodec) &&
      UniqueIds(rows) && UniqueInputs(rows) &&
      forall k :: 0 <= k < |rows| ==> IsSerialized(inputCodec, rows[k].input)
    }

    /** A store over a fresh, empty table. */
    constructor (inputCodec: Codec<I>, resultCodec: Codec<R>)
      requires RoundTrips(inputCodec) && RoundTrips(resultCodec)
      ensures Valid()
      ensures this.inputCodec == inputCodec && this.resultCodec == resultCodec
      ensures rows == []
    {
      this.inputCodec := inputCodec;
      this.resultCodec := resultCodec;
      rows := [];
    }

    /** Every row, in storage order, with id and name as stored and input and result parsed from their text. */
    function List(): (quotes: seq<SavedQuote<I, R>>)
      reads this
      ensures |quotes| == |rows|
      ensures forall k :: 0 <= k < |rows| ==>
        quotes[k].id == rows[k].id && quotes[k].quoteName == rows[k].quoteName &&
        quotes[k].input == inputCodec.parse(rows[k].input) &&
        quotes[k].result == resultCodec.parse(rows[k].result)
    {
      var table := rows;
      seq(|table|, k requires 0 <= k < |table| =>
        SavedQuote(table[k].id, inputCodec.parse(table[k].input), resultCodec.parse(table[k].result), table[k].quoteName))
    }

    /**
     * Saves a quote under `id` unless its serialized input is already stored
     * (DuplicateInput) or `id` already is (PrimaryKeyViolation); on failure
     * the table is left as it was.
     */
    method Add(input: I, result: R, name: Option<string>, id: string) returns (r: Result<SavedQuote<I, R>>)
      requires Valid()
      modifies this
      ensures Valid()
      ensures old(CountInput(rows, inputCodec.stringify(input))) > 0 ==> r == Err(DuplicateInput)
      ensures old(CountInput(rows, inputCodec.stringify(input))) == 0 && old(HasId(rows, id)) ==>
        r == Err(PrimaryKeyViolation)
      ensures r.Ok? <==> old(CountInput(rows, inputCodec.stringify(input))) == 0 && !old(HasId(rows, id))
      ensures r.Err? ==> rows == old(rows)
      ensures r.Ok? ==>
        r.value == SavedQuote(id, input, result, ResolveName(name)) &&
        rows == old(rows) + [Row(id, inputCodec.stringify(input), resultCodec.stringify(result), ResolveName(name))]
      ensures r.Ok? ==> List() == old(List()) + [r.value]
    {
      var serialized := inputCodec.stringify(input);
      if CountInput(rows, serialized) > 0 {
        return Err(DuplicateInput);
      }
      var quoteName := ResolveName(name);
      if HasId(rows, id) {
        return Err(PrimaryKeyViolation);
      }
      var row := Row(id, serialized, resultCodec.stringify(result), quoteName);
      StringifyIsSerialized(inputCodec, input);
      InsertKeepsUniqueness(rows, row);
      rows := rows + [row];
      r := Ok(SavedQuote(id, input, result, quoteName));
      assert List() == old(List()) + [r.value];
    }

    /** Deletes the row carrying `id`, if any, and reports whether a row was deleted. */
    method Remove(id: string) returns (deleted: bool)
      requires Valid()
      modifies this
      ensures Valid()
      ensures rows == DeleteById(old(rows), id)
      ensures deleted <==> old(HasId(rows, id))
      ensures !deleted ==> rows == old(rows)
      ensures deleted ==> exists k :: 0 <= k < |old(rows)| && old(rows)[k].id == id && rows == old(rows)[..k] + old(rows)[k + 1..]
    {
      var before := rows;
      DeleteKeepsDistinct(before, id, InputOf);
      DeleteKeepsDistinct(before, id, IdOf);
      DeleteKeepsOthers(before, id);
      rows := DeleteById(before, id);
      var changes := |before| - |rows|;
      deleted := changes > 0;
      if deleted {
        var k :| 0 <= k < |before| && before[k].id == id;
        DeleteUniqueId(before, k);
      }
      forall k | 0 <= k < |rows| ensures IsSerialized(inputCodec, rows[k].input) {
        assert rows[k] in before;
      }
    }
  }

  /**
   * A client run: save a named quote, reject the same input as a duplicate,
   * list one quote, reject a clashing id, remove the quote, list nothing, and
   * remove the same id again to no effect, then reuse the freed id for a new
   * input saved under the placeholder name.
   */
  method Scenario() {
    var text := Codec((s: string) => s, (s: string) => s);
    var store := new QuotesStore<string, string>(text, text);
    var first := store.Add("{\"x\":1}", "{\"total\":10}", Some("Q1"), "k3j9x0aq");
    assert first == Ok(SavedQuote("k3j9x0aq", "{\"x\":1}", "{\"total\":10}", "Q1"));
    var again := store.Add("{\"x\":1}", "{\"total\":99}", None, "p2m7c4zd");
    assert again == Err(DuplicateInput);
    assert |store.List()| == 1;
    var unnamed := store.Add("{\"x\":2}", "{\"total\":20}", Some(""), "k3j9x0aq");
    assert unnamed == Err(PrimaryKeyViolation);
    var gone := store.Remove("k3j9x0aq");
    assert gone;
    assert store.List() == [];
    var goneAgain := store.Remove("k3j9x0aq");
    assert !goneAgain;
    var reused := store.Add("{\"x\":2}", "{\"total\":20}", Some(""), "k3j9x0aq");
    assert reused == Ok(SavedQuote("k3j9x0aq", "{\"x\":2}", "{\"total\":20}", DefaultQuoteName));
  }
}
