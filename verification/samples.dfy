/** The per-proposal sample store (a JSON object from sample ID to sample record) and
    the table `show_samples` prints from it (main.py lines 42-58 and 192-207). */
module Samples {
  import opened Wrappers
  import opened Seqs
  import opened Dicts
  import opened Json

  /** The store as `json.load` returns it: sample IDs to sample records, in file order. */
  type Store = Dict<Value>

  /** The key under which a record keeps the free text the user typed. */
  const UserInputKey: string := "user_sample_input"

  /** The first column of the table. */
  const SampleIdHeader: string := "Sample ID"

  /** `rec` is the record made from `response` by setting its user-input field to `input`. */
  ghost predicate RecordOf(rec: Value, response: Value, input: string)
    requires response.Object?
  {
    && rec.Object?
    && Get(rec.fields, UserInputKey) == Some(Str(input))
    && (forall k | k != UserInputKey :: Get(rec.fields, k) == Get(response.fields, k))
  }

  /** Store the parsed reply `response` under `id`, with the user's free text added
      (`response["user_sample_input"] = sample_input`, then `existing_data.update`).
      The item assignment raises `TypeError` unless the reply is a JSON object: `None`. */
  function AddSample(store: Store, id: string, response: Value, input: string): (r: Option<Store>)
    ensures r.Some? <==> response.Object?
    ensures r.Some? ==> Get(r.value, id).Some? && RecordOf(Get(r.value, id).value, response, input)
    ensures r.Some? ==> forall k | k != id :: Get(r.value, k) == Get(store, k)
    ensures r.Some? ==> Keys(r.value) == if id in Keys(store) then Keys(store) else Keys(store) + [id]
    ensures r.Some? && Distinct(Keys(store)) ==> Distinct(Keys(r.value))
  {
    match response
    case Object(fields) => Some(Put(store, id, Object(Put(fields, UserInputKey, Str(input)))))
    case _ => None
  }

  /** The printed table: column names and one row of cells per sample. */
  datatype Table = Table(headers: seq<string>, rows: seq<seq<Value>>)

  /** Why `show_samples` raises instead of printing. */
  datatype TableError =
    | NoSamples               // `next` on an empty store: StopIteration
    | FirstNotRecord          // the first record has no `.keys()`: AttributeError
    | NoUserInputColumn       // `headers.remove` finds no user-input key: ValueError
    | RecordNotObject(id: string)  // a later record has no `.get`: AttributeError

  /** `["Sample ID"] + list(first.keys())` with the first `"user_sample_input"` removed. */
  function Headers(first: Dict<Value>): seq<string> {
    RemoveFirst([SampleIdHeader] + Keys(first), UserInputKey)
  }

  /** `[sample_id] + [record.get(key, "") for key in columns]`. The comprehension only
      calls `.get` when there is a column, so a record that is not a JSON object still
      yields the one-cell row `[sample_id]` when `columns` is empty. */
  function Row(id: string, record: Value, columns: seq<string>): (r: seq<Value>)
    requires columns == [] || record.Object?
    ensures |r| == |columns| + 1 && r[0] == Str(id)
    ensures forall j | 1 <= j <= |columns| :: r[j] == GetOr(record.fields, columns[j - 1], Str(""))
  {
    [Str(id)] + seq(|columns|, j requires 0 <= j < |columns| => GetOr(record.fields, columns[j], Str("")))
  }

  /** One row per sample, in store order. */
  function Rows(store: Store, columns: seq<string>): seq<seq<Value>>
    requires columns == [] || forall i | 0 <= i < |store| :: store[i].1.Object?
  {
    seq(|store|, i requires 0 <= i < |store| => Row(store[i].0, store[i].1, columns))
  }

  /** Position of the first value that is not a JSON object, if any. */
  function FirstNonRecord(store: Store): (r: Option<nat>)
    ensures r.None? <==> forall i | 0 <= i < |store| :: store[i].1.Object?
    ensures r.Some? ==> r.value < |store| && !store[r.value].1.Object?
    ensures r.Some? ==> forall i | 0 <= i < r.value :: store[i].1.Object?
  {
    if store == [] then None
    else if !store[0].1.Object? then Some(0)
    else match FirstNonRecord(store[1..])
      case None => None
      case Some(i) => Some(i + 1)
  }

  /** `show_samples` gets past its header line and through every row: the store is
      non-empty, its first record is a JSON object holding the user-input key, and, when
      there is a column to look up, every record is a JSON object. */
  predicate Printable(store: Store) {
    && |store| > 0
    && store[0].1.Object?
    && UserInputKey in Keys(store[0].1.fields)
    && (|Headers(store[0].1.fields)| > 1 ==> forall i | 0 <= i < |store| :: store[i].1.Object?)
  }

  /** The table of a store whose header row can be built: headers from the first record,
      one row per sample in store order, one cell per header, `""` for a missing key.
      Later records need to be JSON objects only when there is a column to fill. */
  function TableOf(store: Store): (t: Table)
    requires Printable(store)
    ensures t.headers == Headers(store[0].1.fields)
    ensures |t.headers| >= 1 && t.headers[0] == SampleIdHeader
    ensures t.headers[1..] == RemoveFirst(Keys(store[0].1.fields), UserInputKey)
    ensures |t.rows| == |store|
    ensures forall i | 0 <= i < |store| :: |t.rows[i]| == |t.headers| && t.rows[i][0] == Str(store[i].0)
    ensures forall i, j | 0 <= i < |store| && 1 <= j < |t.headers| ::
      store[i].1.Object? && t.rows[i][j] == GetOr(store[i].1.fields, t.headers[j], Str(""))
  {
    var keys := Keys(store[0].1.fields);
    var headers := Headers(store[0].1.fields);
    assert ([SampleIdHeader] + keys)[1..] == keys;
    assert headers == [SampleIdHeader] + RemoveFirst(keys, UserInputKey);
    Table(headers, Rows(store, headers[1..]))
  }

  /** `show_samples` without the file read and the printing: the table it would print,
      or the exception it would raise first. */
  function ShowSamples(store: Store): (r: Result<Table, TableError>)
    ensures r.Success? <==> Printable(store)
    ensures r == Failure(NoSamples) <==> |store| == 0
    ensures r == Failure(FirstNotRecord) <==> |store| > 0 && !store[0].1.Object?
    ensures r == Failure(NoUserInputColumn) <==>
      |store| > 0 && store[0].1.Object? && UserInputKey !in Keys(store[0].1.fields)
    ensures r.Failure? && r.error.RecordNotObject? <==>
      && |store| > 0 && store[0].1.Object? && UserInputKey in Keys(store[0].1.fields)
      && |Headers(store[0].1.fields)| > 1 && FirstNonRecord(store).Some?
    ensures r.Failure? && r.error.RecordNotObject? ==>
      FirstNonRecord(store).Some? && r.error.id == store[FirstNonRecord(store).value].0
    ensures r.Success? ==> r.value == TableOf(store)
  {
    if store == [] then Failure(NoSamples)
    else if !store[0].1.Object? then Failure(FirstNotRecord)
    else if UserInputKey !in [SampleIdHeader] + Keys(store[0].1.fields) then Failure(NoUserInputColumn)
    else if |Headers(store[0].1.fields)| > 1 && FirstNonRecord(store).Some? then
      Failure(RecordNotObject(store[FirstNonRecord(store).value].0))
    else Success(TableOf(store))
  }

  /** When the first record holds only the user-input key there is no column to fill:
      the table lists the sample IDs alone, whatever the later records hold. */
  lemma OnlyIdsWithoutColumns(store: Store)
    requires |store| > 0 && store[0].1.Object? && Keys(store[0].1.fields) == [UserInputKey]
    ensures ShowSamples(store) ==
      Success(Table([SampleIdHeader], seq(|store|, i requires 0 <= i < |store| => [Str(store[i].0)])))
  {
    assert [SampleIdHeader] + [UserInputKey] == [SampleIdHeader, UserInputKey];
    assert IndexOf([SampleIdHeader, UserInputKey], UserInputKey) == 1;
    assert Headers(store[0].1.fields) == [SampleIdHeader];
    assert Printable(store);
    var t := TableOf(store);
    var ids := seq(|store|, i requires 0 <= i < |store| => [Str(store[i].0)]);
    assert forall i | 0 <= i < |store| :: t.rows[i] == ids[i];
    assert t == Table([SampleIdHeader], ids);
  }

  /** An instance of the above: a later sample that is a bare number still gets a row. */
  lemma NumberBelowInputOnlyRecord()
    ensures ShowSamples([("a", Object([(UserInputKey, Str("t"))])), ("b", Int(5))]) ==
      Success(Table([SampleIdHeader], [[Str("a")], [Str("b")]]))
  {
    var store: Store := [("a", Object([(UserInputKey, Str("t"))])), ("b", Int(5))];
    assert Keys(store[0].1.fields) == [UserInputKey];
    OnlyIdsWithoutColumns(store);
    assert seq(|store|, i requires 0 <= i < |store| => [Str(store[i].0)]) == [[Str("a")], [Str("b")]];
  }

  /** The columns after "Sample ID" are exactly the first record's keys other than the
      user-input key, which is never shown. */
  lemma HeadersAreFirstRecordKeys(store: Store, k: string)
    requires ShowSamples(store).Success?
    requires Distinct(Keys(store[0].1.fields))
    ensures k in ShowSamples(store).value.headers[1..] <==> k in Keys(store[0].1.fields) && k != UserInputKey
    ensures UserInputKey !in ShowSamples(store).value.headers[1..]
  {
    RemoveFirstMembers(Keys(store[0].1.fields), UserInputKey, k);
    RemoveFirstMembers(Keys(store[0].1.fields), UserInputKey, UserInputKey);
  }

  /** Adding a sample under a new ID to a printable store adds one row at the bottom,
      with the same columns; its cells are the reply's own fields, `""` where the reply
      lacks one, and the earlier rows stay as they were. */
  lemma TableAfterAdd(store: Store, id: string, response: Value, input: string)
    requires ShowSamples(store).Success?
    requires Distinct(Keys(store[0].1.fields))
    requires id !in Keys(store)
    requires response.Object?
    ensures AddSample(store, id, response, input).Some?
    ensures ShowSamples(AddSample(store, id, response, input).value) ==
      var t := ShowSamples(store).value;
      Success(Table(t.headers, t.rows + [Row(id, response, t.headers[1..])]))
  {
    var t := ShowSamples(store).value;
    var rec := Object(Put(response.fields, UserInputKey, Str(input)));
    var store' := store + [(id, rec)];
    assert AddSample(store, id, response, input) == Some(store');
    HeadersAreFirstRecordKeys(store, UserInputKey);
    RowIgnoresInput(id, response.fields, input, t.headers[1..]);
    assert Row(id, rec, t.headers[1..]) == Row(id, response, t.headers[1..]);
    TableOfAppend(store, id, rec);
    assert store'[0] == store[0];
  }

  /** A row does not show the user-input field when it is not one of the columns. */
  lemma RowIgnoresInput(id: string, fields: Dict<Value>, input: string, columns: seq<string>)
    requires UserInputKey !in columns
    ensures Row(id, Object(Put(fields, UserInputKey, Str(input))), columns) == Row(id, Object(fields), columns)
  {
    var fields' := Put(fields, UserInputKey, Str(input));
    forall j | 0 <= j < |columns|
      ensures GetOr(fields', columns[j], Str("")) == GetOr(fields, columns[j], Str(""))
    {
    }
  }

  /** Appending a record to a printable store appends its row and keeps the columns. */
  lemma TableOfAppend(store: Store, id: string, rec: Value)
    requires ShowSamples(store).Success? && rec.Object?
    ensures ShowSamples(store + [(id, rec)]) ==
      Success(Table(TableOf(store).headers, TableOf(store).rows + [Row(id, rec, TableOf(store).headers[1..])]))
  {
    var store' := store + [(id, rec)];
    AppendPrintable(store, id, rec);
    AppendRows(store, id, rec, TableOf(store).headers[1..]);
    assert ShowSamples(store') == Success(TableOf(store'));
  }

  /** Appending a record keeps a printable store printable, under the same header. */
  lemma AppendPrintable(store: Store, id: string, rec: Value)
    requires Printable(store) && rec.Object?
    ensures Printable(store + [(id, rec)])
    ensures (store + [(id, rec)])[0] == store[0]
  {
    var store' := store + [(id, rec)];
    assert forall i | 0 <= i < |store| :: store'[i] == store[i];
  }

  /** The rows of the appended store are the old rows and one row for the new record. */
  lemma AppendRows(store: Store, id: string, rec: Value, columns: seq<string>)
    requires columns == [] || (rec.Object? && forall i | 0 <= i < |store| :: store[i].1.Object?)
    ensures Rows(store + [(id, rec)], columns) == Rows(store, columns) + [Row(id, rec, columns)]
  {
    var store' := store + [(id, rec)];
    assert forall i | 0 <= i < |store| :: store'[i] == store[i];
  }
}
