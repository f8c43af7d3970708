/**
 * `save_queries_to_csv`: with no records nothing is written; otherwise one
 * row per record, in order, with the dimension tuple in its canonical JSON.
 * Only the rows are modelled, not the file.
 */
module CsvRows {
  import opened Wrappers
  import opened Records
  import CanonicalJson
  import CanonicalJsonFacts

  /** The file's header: the keys of each row's dictionary, in their order. */
  const Columns: seq<string> :=
    ["id", "query", "dimension_tuple_json", "is_realistic_and_kept", "notes_for_filtering"]

  datatype CsvRow = CsvRow(
    id: string,
    query: string,
    dimensionTupleJson: string,
    isRealisticAndKept: int,
    notesForFiltering: string)

  /** What a call to `save_queries_to_csv` leaves behind. */
  datatype SaveOutcome = NothingToSave | Written(header: seq<string>, rows: seq<CsvRow>)

  function RowOf(q: QueryWithDimensions): CsvRow {
    CsvRow(q.id, q.query, CanonicalJson.Encode(q.dimensionTuple), q.isRealisticAndKept,
      q.notesForFiltering)
  }

  function SaveQueriesToCsv(queries: seq<QueryWithDimensions>): (out: SaveOutcome)
    ensures out.NothingToSave? <==> queries == []
    ensures out.Written? ==> out.header == Columns && |out.rows| == |queries|
  {
    if queries == [] then NothingToSave
    else Written(Columns, seq(|queries|, k requires 0 <= k < |queries| => RowOf(queries[k])))
  }

  /**
   * Row k holds record k: its id, query and filtering fields verbatim, and a
   * JSON column that parses back to exactly its dimension tuple.
   */
  lemma RowsMatchRecords(queries: seq<QueryWithDimensions>, k: nat)
    requires k < |queries|
    ensures SaveQueriesToCsv(queries).Written?
    ensures var row := SaveQueriesToCsv(queries).rows[k];
      && row.id == queries[k].id
      && row.query == queries[k].query
      && CanonicalJson.Decode(row.dimensionTupleJson) == Some(queries[k].dimensionTuple)
      && row.isRealisticAndKept == queries[k].isRealisticAndKept
      && row.notesForFiltering == queries[k].notesForFiltering
  {
    CanonicalJsonFacts.DecodeEncode(queries[k].dimensionTuple);
  }

  /** Two rows have the same JSON column exactly when their records have the same tuple. */
  lemma JsonColumnFaithful(queries: seq<QueryWithDimensions>, i: nat, j: nat)
    requires i < |queries| && j < |queries|
    ensures var rows := SaveQueriesToCsv(queries).rows;
      rows[i].dimensionTupleJson == rows[j].dimensionTupleJson
      <==> queries[i].dimensionTuple == queries[j].dimensionTuple
  {
    CanonicalJsonFacts.EncodeInjective(queries[i].dimensionTuple, queries[j].dimensionTuple);
  }
}
