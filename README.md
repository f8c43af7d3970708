# Recipe chatbot: synthetic-query pipeline and chat-history wrapper, in Dafny

This project models the deterministic core of a recipe-chatbot repository that sits on a hosted
large-language-model API. It covers two parts.

- **The synthetic-query pipeline** (`homeworks/hw2/my_implementation/generate_synthetic_queries.py`):
  - `call_llm`, a flat retry loop of at most three attempts with a pause between attempts;
  - `generate_dimension_tuples`, which merges the batches of five sub-requests in submission order,
    drops duplicate tuples by their canonical JSON, and returns nothing if any sub-request raised;
  - `generate_queries_for_tuple`, the task run for one tuple, which catches the error of its own
    call and then returns no queries;
  - `generate_queries_parallel`, which reads the tasks' query lists in completion order and turns
    them into records numbered `SYN001`, `SYN002`, … in that order;
  - `save_queries_to_csv`, which writes nothing for zero records and otherwise one row per record.
- **The chat backend wrapper** `get_agent_response` (`backend/utils.py`). It puts a system entry
  in front of a history that lacks one, asks the model, strips the reply with `str.strip()` and
  returns a new history with one assistant entry appended.

The model's replies, the thread pools and the clock are not modelled as code. They enter as
inputs:
- each attempt's outcome in `call_llm` is an oracle function from attempt number to result;
- the order in which `as_completed` yields the futures is a sequence of tuple indices;
- each task's result is an input;
- the chat model is a function from the history it is sent to a reply or an error.

Modules, one per component:
- `Wrappers` holds `Option` and `Result`.
- `Records` holds the `DimensionTuple` and `QueryWithDimensions` records.
- `CanonicalJson` and `CanonicalJsonFacts` cover `model_dump_json()` for a tuple, a decoder, and the
  round trip that makes the encoding injective.
- `QueryIds` and `QueryIdFacts` cover the `SYN{n:03d}` ids and a parser for them.
- `Retry` covers `call_llm`.
- `DimensionTuples` covers the merge and dedup.
- `QueryGeneration` covers query generation and numbering.
- `CsvRows` covers the rows.
- `Agent` and `AgentFacts` cover the chat wrapper.
- `SeqFacts` holds generic sequence lemmas.

The loops of the source are methods with loop invariants. Each is proved equal to a reference
function: `CallLlm` to `StopIndex`/`Trace`, `MergeBatches` to `Flatten`, `DedupTuples` to `Dedup`,
and `GenerateQueriesParallel` to `RecordsFor(Emissions(...))`. The lemmas state the properties
of those functions. The dedup loop keeps a `seen` set of canonical JSON strings, as the source
does. The lemma `EncodeInjective` shows that this is the same as comparing tuples structurally.

Two behaviours of the code are modelled as written:
- The dimension-tuple step reads its futures in submission order, and a single failed
  sub-request empties the whole step. It does not keep the batches of the others.
- Saving zero records raises no error. It prints a message and returns without writing.

## Model

| member | source | states |
|---|---|---|
| `Records.NewQuery` | homeworks/hw2/my_implementation/generate_synthetic_queries.py:23-28 | a record built from id, query and tuple has `is_realistic_and_kept = 1` and `notes_for_filtering = ""` |
| `CanonicalJsonFacts.DecodeEncode` | homeworks/hw2/my_implementation/generate_synthetic_queries.py:171 | the canonical JSON string of every tuple parses back to exactly that tuple |
| `CanonicalJsonFacts.EncodeInjective` | homeworks/hw2/my_implementation/generate_synthetic_queries.py:169-173 | two tuples have the same canonical string if and only if they are equal, so string dedup is structural dedup |
| `Retry.StopIndex` | homeworks/hw2/my_implementation/generate_synthetic_queries.py:45-56 | the loop stops at an attempt below 3 that is the first success or the last attempt; every earlier attempt failed |
| `Retry.CallLlm` | homeworks/hw2/my_implementation/generate_synthetic_queries.py:42-56 | the call returns the outcome of the stopping attempt (the first success, else the third error) and performs exactly the attempts up to it with one pause between each two |
| `Retry.StopsAtFirstSuccess` | homeworks/hw2/my_implementation/generate_synthetic_queries.py:45-52 | when attempt k is the first to succeed, the call stops at k and returns its value |
| `Retry.ExhaustedRaisesThird` | homeworks/hw2/my_implementation/generate_synthetic_queries.py:53-55 | when all three attempts fail, the third attempt's error is raised |
| `Retry.SucceedsIffSomeAttemptSucceeds` | homeworks/hw2/my_implementation/generate_synthetic_queries.py:45-55 | the call returns a value if and only if one of the first three attempts succeeds |
| `Retry.TraceShape` | homeworks/hw2/my_implementation/generate_synthetic_queries.py:45-56 | a run of n attempts is attempt 0, pause, attempt 1, …, attempt n-1: n-1 pauses, none after the last attempt |
| `Retry.AtMostThreeAttempts` | homeworks/hw2/my_implementation/generate_synthetic_queries.py:44-45 | no run makes more than three attempts or more than five events |
| `Retry.FailTwiceThenSucceed` | homeworks/hw2/my_implementation/generate_synthetic_queries.py:45-56 | two failures then a success give three calls, two pauses and the third attempt's value |
| `DimensionTuples.MergeBatches` | homeworks/hw2/my_implementation/generate_synthetic_queries.py:163-165 | the `extend` loop yields the concatenation of the batches in order |
| `DimensionTuples.DedupTuples` | homeworks/hw2/my_implementation/generate_synthetic_queries.py:166-175 | the `seen`-set loop over canonical strings yields the first-occurrence deduplication of its input |
| `DimensionTuples.GenerateDimensionTuples` | homeworks/hw2/my_implementation/generate_synthetic_queries.py:149-180 | the empty list as soon as one sub-request raised, whatever the others returned; otherwise the deduplicated concatenation of all batches in submission order |
| `DimensionTuples.DedupElems` | homeworks/hw2/my_implementation/generate_synthetic_queries.py:166-175 | a tuple is in the deduplicated list if and only if it is in the merged list |
| `DimensionTuples.DedupNoDuplicates` | homeworks/hw2/my_implementation/generate_synthetic_queries.py:166-174 | no two entries of the deduplicated list are equal |
| `DimensionTuples.DedupFirstOccurrenceOrder` | homeworks/hw2/my_implementation/generate_synthetic_queries.py:163-175 | each kept tuple occurs in the input and the kept tuples come in the order of their first occurrences, i.e. the output is a subsequence that keeps first occurrences |
| `DimensionTuples.DedupOfDistinct` | homeworks/hw2/my_implementation/generate_synthetic_queries.py:166-175 | a list without repeats is left as it is |
| `DimensionTuples.DedupIdempotent` | homeworks/hw2/my_implementation/generate_synthetic_queries.py:166-175 | deduplicating twice gives the same list as deduplicating once |
| `DimensionTuples.DedupLength` | homeworks/hw2/my_implementation/generate_synthetic_queries.py:166-176 | the output length equals the number of distinct tuples of the input, which is at most the input length |
| `DimensionTuples.DedupOrderIndependent` | homeworks/hw2/my_implementation/generate_synthetic_queries.py:163-175 | rearranged inputs deduplicate to the same set of tuples, of the same size |
| `DimensionTuples.MergedSizeBounds` | homeworks/hw2/my_implementation/generate_synthetic_queries.py:163-176 | the unique merged list is no longer than all batches together and no shorter than the distinct tuples of any one batch |
| `QueryIdFacts.FormatIdShape` | homeworks/hw2/my_implementation/generate_synthetic_queries.py:256 | an id is `SYN` and at least three decimal digits; exactly three when the counter is below 1000 |
| `QueryIdFacts.ParseFormatId` | homeworks/hw2/my_implementation/generate_synthetic_queries.py:256 | the digits of the n-th id read back as n |
| `QueryIdFacts.FormatIdInjective` | homeworks/hw2/my_implementation/generate_synthetic_queries.py:256 | different counter values give different ids |
| `QueryGeneration.QueriesForTuple` | homeworks/hw2/my_implementation/generate_synthetic_queries.py:226-231 | the per-tuple task never raises, because it catches its call's error itself |
| `QueryGeneration.CallQueriesPerTuple` | homeworks/hw2/my_implementation/generate_synthetic_queries.py:226-264 | whatever the completion order, the records of tuple i carry its call's queries in order when the call succeeded, and there are none when it raised |
| `QueryGeneration.CallRecordCount` | homeworks/hw2/my_implementation/generate_synthetic_queries.py:226-264 | whatever the completion order, the step makes exactly as many records as the successful calls returned queries |
| `QueryGeneration.RecordsForShape` | homeworks/hw2/my_implementation/generate_synthetic_queries.py:252-260 | record k carries id `FormatId(k+1)`, the query and tuple of emission k, flag 1 and empty notes |
| `QueryGeneration.GenerateQueriesParallel` | homeworks/hw2/my_implementation/generate_synthetic_queries.py:233-266 | for any order of completion, the records are those of every returned query in completion order, numbered from 1 by the shared counter |
| `QueryGeneration.AppendTupleQueries` | homeworks/hw2/my_implementation/generate_synthetic_queries.py:253-260 | the inner loop appends one record per query of the tuple, each with the next counter value, and leaves the counter one past the record count |
| `QueryGeneration.RecordCount` | homeworks/hw2/my_implementation/generate_synthetic_queries.py:249-264 | whatever the completion order, the record count is the sum of the query-list lengths; a task that raised counts zero |
| `QueryGeneration.PerTupleQueries` | homeworks/hw2/my_implementation/generate_synthetic_queries.py:249-264 | whatever the completion order, the records for tuple i carry exactly its task's queries in order; failing or empty tasks contribute none and do not stop the others |
| `QueryGeneration.IdsConsecutive` | homeworks/hw2/my_implementation/generate_synthetic_queries.py:236-260 | ids numbered in emission order read back as 1, 2, 3, …, so they have no gaps and are pairwise distinct |
| `CsvRows.SaveQueriesToCsv` | homeworks/hw2/my_implementation/generate_synthetic_queries.py:270-284 | nothing is written if and only if there are no records; otherwise the header is the five columns in dictionary order and there are exactly as many rows as records |
| `CsvRows.RowsMatchRecords` | homeworks/hw2/my_implementation/generate_synthetic_queries.py:275-284 | row k holds record k's id, query and filtering fields, and a JSON column that parses back to its tuple |
| `CsvRows.JsonColumnFaithful` | homeworks/hw2/my_implementation/generate_synthetic_queries.py:279 | two rows have the same JSON column if and only if their records have the same tuple |
| `Agent.WithSystemPrompt` | backend/utils.py:86-89 | the history sent to the model always starts with a system entry |
| `Agent.GetAgentResponse` | backend/utils.py:68-103 | a successful turn returns at least two entries and ends with an assistant entry |
| `AgentFacts.InjectsWhenMissing` | backend/utils.py:86-87 | an empty history, or one not led by a system entry, gets the system prompt put in front of all its entries |
| `AgentFacts.KeepsExistingSystem` | backend/utils.py:88-89 | a history led by a system entry is sent unchanged, with nothing added |
| `AgentFacts.NormaliseIdempotent` | backend/utils.py:86-89 | normalising an already normalised history changes nothing |
| `AgentFacts.ResponseShape` | backend/utils.py:86-102 | the result is the normalised history plus one assistant entry with the stripped reply; the caller's entries appear unchanged; the length is the input length + 2 after an injection and + 1 otherwise |
| `AgentFacts.ErrorSurfaces` | backend/utils.py:91-94 | a model error reaches the caller unchanged |
| `AgentFacts.NextTurnAddsOne` | backend/utils.py:86-102 | feeding a turn's result back in injects no second system entry, so the next turn adds exactly one entry |
| `AgentFacts.StripShape` | backend/utils.py:96-99 | the stripped reply is a contiguous piece of the raw reply, with only whitespace around it, and it neither starts nor ends with whitespace |
| `AgentFacts.StripIdempotent` | backend/utils.py:96-99 | stripping twice is stripping once |

## Left out

- The model provider calls (`litellm.completion`, `completion`) are left out. They are oracles: an outcome per attempt for `call_llm`, and a function from the history sent to a reply or error for the chat wrapper.
- `json.loads` and the schema validation of the model's answer (generate_synthetic_queries.py:52) are left out. They are part of each attempt's outcome.
- `ThreadPoolExecutor` and `as_completed` are left out. Concurrency is replaced by a given completion order and given task results.
- `time.sleep(1)` is a `Sleep` event in the trace. `time.time` and the elapsed time of `main` are left out.
- `print`, `tqdm` and `load_dotenv` are left out. They have no effect on the results.
- `main` is left out: the `OPENAI_API_KEY` check, the hand-off between the steps and the final report. It only sequences the modelled steps and prints.
- The `MODEL_NAME` environment lookup is left out.
- Writing the CSV file with pandas (`DataFrame`, `to_csv`) is left out. Only the rows are modelled.
- The prompt texts and `SYSTEM_PROMPT` are left out. The system prompt is a parameter of `Agent.WithSystemPrompt`, because the constant in the source holds unresolved merge-conflict markers.
- `homeworks/hw2/my_implementation/generate_recipes.py` is not part of this model. It is a thin wrapper around a model call and a `[0:40]` slice.
- `DimensionTuples.GenerateDimensionTuples` takes any number of sub-request results. The source always submits five, one `call_llm` each.
- `QueryGeneration.GenerateQueriesParallel` runs its inner `for query in queries` loop in the helper method `AppendTupleQueries`. The behaviour is the same.
- `QueryGeneration.GenerateQueriesParallel` accepts any task results, including `Raised`, so the source's `except` at lines 262-264 is modelled. The pipeline's own tasks, `Tasks(calls)`, never raise: `QueriesForTuple` ensures it, and `CallQueriesPerTuple` and `CallRecordCount` state the step for them.
- `CanonicalJson.Encode` covers only the four fields of a tuple. Python strings may hold lone surrogate code points, which Dafny's `char` cannot, so those strings are not modelled.
- `Agent.IsSpace` is `str.isspace` for the Unicode version Python 3 ships today. It lists the whitespace code points explicitly.
