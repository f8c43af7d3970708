/** The records of the synthetic-query pipeline (generate_synthetic_queries.py). */
module Records {

  /** The parameters that seed one family of synthetic queries. */
  datatype DimensionTuple = DimensionTuple(
    occasion: string,
    authorStyle: string,
    ingredients: seq<string>,
    cookingMethod: string)

  /** One generated query, as emitted by the query synthesiser. */
  datatype QueryWithDimensions = QueryWithDimensions(
    id: string,
    query: string,
    dimensionTuple: DimensionTuple,
    isRealisticAndKept: int,
    notesForFiltering: string)

  /** Default of the `is_realistic_and_kept` field. */
  const DefaultIsRealisticAndKept: int := 1

  /** Default of the `notes_for_filtering` field. */
  const DefaultNotesForFiltering: string := ""

  /** A record built with the defaults of the two filtering fields. */
  function NewQuery(id: string, query: string, t: DimensionTuple): (q: QueryWithDimensions)
    ensures q.id == id && q.query == query && q.dimensionTuple == t
    ensures q.isRealisticAndKept == 1 && q.notesForFiltering == ""
  {
    QueryWithDimensions(id, query, t, DefaultIsRealisticAndKept, DefaultNotesForFiltering)
  }
}
