# Quote store

A model of the quote store of a small finance calculator backend: the
`QuotesStore` class, which keeps one SQLite table `quotes` of rows
`(id, input, result, quoteName)` and offers three operations.

- `list` returns every row, with the stored input and result parsed back from
  their JSON text.
- `add` refuses an entry whose serialized input is already stored. Otherwise it
  resolves the name (`"Untitled Quote"` when none or `""` is given), inserts one
  row and returns the new quote.
- `remove` deletes the row with a given id and reports whether a row went.

The model has two modules.

- `Serialization` (serialization.dfy): a `Codec<T>` is a pair of total
  functions `stringify`/`parse` that stand for `JSON.stringify` and
  `JSON.parse`. `RoundTrips` says that parsing the text of a value gives the
  value back. `IsSerialized` says that a text is the text of some value.
- `QuotesStoreDB` (quotes_store.dfy): the class `QuotesStore<I, R>`. It holds
  the table as `var rows: seq<Row>`, in storage order. The input and result
  types of the calculator are the type parameters `I` and `R`, since the store
  never looks inside them. Each SQL statement the class issues is a function on
  the row sequence:
  - `CountInput` is `SELECT COUNT(*) ... WHERE input = ?`;
  - `HasId` is the check that SQLite's PRIMARY KEY makes on insert;
  - `DeleteById` is `DELETE ... WHERE id = ?`.

  `Add` and `Remove` change `rows` in place. `List` is a read-only function over
  it. The object invariant `Valid()` holds that:
  - the codecs round-trip;
  - ids are unique (the primary key);
  - serialized inputs are unique (what the duplicate check keeps);
  - every stored input is serialized text.

The id that the source draws with `Math.random().toString(36).slice(2, 10)` is
a parameter of `Add`. The source never checks it against the table. An id that
is already stored makes the INSERT fail on the PRIMARY KEY constraint before
anything is written. The model returns this as `Err(PrimaryKeyViolation)`. The
duplicate-input check comes first, as in the source, so an entry that is both a
duplicate and an id clash gets `Err(DuplicateInput)`. The thrown
`Error("A quote with identical input already exists")` is `Err(DuplicateInput)`.

The client method `Scenario` runs the sequence of calls the store is meant to
support, using identity codecs on strings:
1. add a named quote;
2. add the same input again, which is rejected as a duplicate;
3. list, which gives one quote;
4. add under a clashing id, which is rejected;
5. remove the first quote, which succeeds;
6. list, which gives nothing;
7. remove the same id again, which returns false;
8. add a new input under the freed id with the name `""`, which succeeds and
   gets the name `"Untitled Quote"`.

Each step is an assertion proved from the contracts alone.

Ids are unique only among the rows currently stored. The PRIMARY KEY does
not stop a removed id from being used again, and the model allows the same:
after `Remove(id)`, an `Add` under that id succeeds when its input is new.

## Model

| member | source | states |
|---|---|---|
| `QuotesStoreDB.ResolveName` | backend/src/quotesStoreDB.ts:51 | the quote name is the caller's name when it is given and non-empty, `"Untitled Quote"` when it is absent or `""`, and is never empty |
| `QuotesStoreDB.CountInput` | backend/src/quotesStoreDB.ts:42-44 | the count of rows whose input text equals the serialized input is at most the table size, and is positive exactly when some row holds that text |
| `QuotesStoreDB.DeleteById` | backend/src/quotesStoreDB.ts:61 | the table after the DELETE holds no row with the id, never grows, shrinks exactly when some row had the id, and is unchanged when none did |
| `QuotesStoreDB.DeleteKeepsOthers` | backend/src/quotesStoreDB.ts:61 | a row survives the DELETE exactly when it was in the table and its id differs from the deleted id |
| `QuotesStoreDB.DeleteKeepsDistinct` | backend/src/quotesStoreDB.ts:60-62 | deleting by id keeps any column that was pairwise distinct pairwise distinct, so `remove` keeps both the unique-input and the primary-key invariant |
| `QuotesStoreDB.InsertKeepsUniqueness` | backend/src/quotesStoreDB.ts:42-55 | inserting a row whose input text the COUNT query did not find and whose id is not stored keeps inputs unique and ids unique |
| `QuotesStoreDB.DeleteUniqueId` | backend/src/quotesStoreDB.ts:60-62 | with unique ids, deleting the id of row k removes exactly that row and keeps all other rows in their order |
| `QuotesStoreDB.DeleteAppended` | backend/src/quotesStoreDB.ts:53-62 | removing the id of a row just inserted under a fresh id gives back exactly the table before the insert |
| `QuotesStoreDB.DuplicateIffSameValue` | backend/src/quotesStoreDB.ts:42-47 | with a round-tripping codec and serialized stored inputs, the text comparison finds a duplicate exactly when some stored input parses to the value being added |
| `QuotesStoreDB.QuotesStore.constructor` | backend/src/quotesStoreDB.ts:15-26 | a new store has an empty table and satisfies the store invariant |
| `QuotesStoreDB.QuotesStore.List` | backend/src/quotesStoreDB.ts:28-38 | one quote per row in table order with the row's id and name, and input and result parsed from the row's text; nothing is filtered and nothing changes |
| `QuotesStoreDB.QuotesStore.Add` | backend/src/quotesStoreDB.ts:41-58 | fails with DuplicateInput when the serialized input is stored, else with PrimaryKeyViolation when the id is stored, in both cases leaving the table as it was. Otherwise it appends exactly the row (id, stringify(input), stringify(result), resolved name), returns the caller's input and result with that id and name, makes `list` grow by exactly the returned quote, and keeps the store invariant |
| `QuotesStoreDB.QuotesStore.Remove` | backend/src/quotesStoreDB.ts:60-63 | returns true exactly when some row had the id. Then exactly that row is gone and the others keep their order; otherwise the table is unchanged. The store invariant is kept |
| `Serialization.StringifyIsSerialized` | backend/src/quotesStoreDB.ts:55 | the text written for a value by a round-tripping codec is serialized text, so every input `add` stores is |

## Left out

- Opening `quotes.db` and the `CREATE TABLE IF NOT EXISTS` in the constructor: file I/O inside SQLite. The model starts from an empty table, so rows that persist across restarts and repeated construction against the same file are not modelled.
- The SQL text and better-sqlite3's prepare/get/all/run calls are foreign library calls. Only their effect on the row sequence is modelled.
- `JSON.stringify` and `JSON.parse` are the caller-supplied `Codec` functions. Their round trip is a precondition of the constructor, not something proved. JSON values that do not round-trip, such as `undefined` or dates, are outside the model.
- The random id `Math.random().toString(36).slice(2, 10)` involves randomness and floating point. The id is a parameter of `Add`.
- The shapes of the calculator's input and result types are not part of this model. They are the opaque type parameters `I` and `R`.
- `list` order: the query has no ORDER BY, so SQLite promises no order. `List` returns the rows in insertion order, the rowid order SQLite yields for this scan, and `Add`'s `List() == old(List()) + [r.value]` depends on that choice.
- Concurrent callers racing between the duplicate check and the insert are not modelled: the model is single-threaded and each call is atomic.
- Storage failures (an unwritable or corrupt database) are outside the model, so no operation fails for that reason.
