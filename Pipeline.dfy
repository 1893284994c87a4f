/**
 * The run of src/main.py: the processed-id store, the processing loop with its skip and
 * mark rules, the four-cell row builder with its cell ceilings, and the append step with
 * its 50-row batch fallback.
 *
 * The Gmail and Sheets services are parameters: fetching a message is a function from id
 * to message (`None` when the call raises), and appending rows is a predicate on the rows
 * passed (true when the call returns, false when it raises).
 */
module Pipeline {
  import opened Wrappers
  import opened EmailParser

  // ---------------------------------------------------------------------------
  // The processed-id store

  /** `StateManager`: the set of message ids already handled, kept across runs. */
  class StateManager {
    var processedIds: set<string>

    /** The store as loaded from the state file (the empty set when there is none). */
    constructor(loaded: set<string>)
      ensures processedIds == loaded
    {
      processedIds := loaded;
    }

    /** `is_processed`: plain membership, the store left as it was. */
    method IsProcessed(id: string) returns (b: bool)
      ensures b <==> id in processedIds
    {
      b := id in processedIds;
    }

    /** `mark_processed`: the id joins the store and nothing else changes. */
    method MarkProcessed(id: string)
      modifies this
      ensures processedIds == old(processedIds) + {id}
    {
      processedIds := processedIds + {id};
    }

    /** `mark_multiple_processed`: exactly the listed ids join the store. */
    method MarkMultipleProcessed(ids: seq<string>)
      modifies this
      ensures processedIds == old(processedIds) + (set x | x in ids)
    {
      for k := 0 to |ids|
        invariant processedIds == old(processedIds) + (set x | x in ids[..k])
      {
        assert ids[..k + 1] == ids[..k] + [ids[k]];
        processedIds := processedIds + {ids[k]};
      }
      assert ids[..|ids|] == ids;
    }
  }

  // ---------------------------------------------------------------------------
  // Field truncation

  function Min(a: int, b: int): int {
    if a <= b then a else b
  }

  function Max(a: int, b: int): int {
    if a >= b then a else b
  }

  /** Python's `s[:k]`: a negative `k` counts from the end, and the slice is clamped. */
  function PyPrefix(s: string, k: int): (r: string)
    ensures |r| == (if k >= 0 then Min(k, |s|) else Max(0, |s| + k))
    ensures r == s[..|r|]
  {
    if k >= 0 then (if k <= |s| then s[..k] else s)
    else if |s| + k >= 0 then s[..|s| + k]
    else []
  }

  /**
   * `safe_truncate_field(field, max_len, suffix)`: an empty field and a field that fits come
   * back unchanged; a longer one keeps its first `maxLen - |suffix|` characters and gets
   * the suffix, then is cut to `maxLen`.
   */
  function SafeTruncateField(field: string, maxLen: int, suffix: string): (r: string)
    ensures field == "" || |field| <= maxLen ==> r == field
    ensures |field| > maxLen >= |suffix| ==> r == field[..maxLen - |suffix|] + suffix
    ensures |field| > maxLen >= 0 ==> |r| == maxLen
    ensures maxLen >= 0 ==> |r| <= maxLen
  {
    if field == "" then field
    else if |field| > maxLen then PyPrefix(PyPrefix(field, maxLen - |suffix|) + suffix, maxLen)
    else field
  }

  /** A field truncated once is not changed by truncating it again. */
  lemma SafeTruncateIdempotent(field: string, maxLen: int, suffix: string)
    requires maxLen >= 0
    ensures SafeTruncateField(SafeTruncateField(field, maxLen, suffix), maxLen, suffix) ==
            SafeTruncateField(field, maxLen, suffix)
  {
  }

  // ---------------------------------------------------------------------------
  // Rows

  /** The per-field ceiling, a margin below the sheet's per-cell limit. */
  const MaxCellLength: nat := 49990
  /** The sheet's per-cell limit. */
  const CellLimit: nat := 50000
  const Ellipsis: string := "..."

  /**
   * The final per-cell cap exactly as written: a cell over the limit keeps 49,987
   * characters and gets the suffix. With the 14-character content suffix that is one
   * character over the limit.
   */
  function CellCapAsWritten(s: string, suffix: string): string {
    if |s| <= CellLimit then PyPrefix(s, CellLimit) else s[..49987] + suffix
  }

  /** The as-written cap breaks the cell limit for an over-long content cell. */
  lemma CellCapAsWrittenOverflows(s: string)
    requires |s| > CellLimit
    ensures |CellCapAsWritten(s, TruncateSuffix)| == CellLimit + 1
  {
  }

  /** The re-check after the row is built: a cell over the limit is cut to 49,987 characters plus "...". */
  function RecheckAsWritten(cell: string): string {
    if |cell| > CellLimit then cell[..49987] + Ellipsis else cell
  }

  /**
   * Through the cap and the re-check as written, an over-long content cell ends in "..."
   * instead of the content suffix: the truncation marker is lost.
   */
  lemma CellAsWrittenLosesMarker(s: string)
    requires |s| > CellLimit
    ensures RecheckAsWritten(CellCapAsWritten(s, TruncateSuffix)) == s[..49987] + Ellipsis
  {
    var c := CellCapAsWritten(s, TruncateSuffix);
    assert |c| == CellLimit + 1;
    assert c[..49987] == s[..49987];
  }

  /**
   * The final per-cell cap as intended: an over-long cell keeps `MaxCellLength - |suffix|`
   * characters, as the three-dot cells already do, so the suffixed cell fits.
   */
  function CellCap(s: string, suffix: string): (r: string)
    requires |suffix| <= MaxCellLength
    ensures |r| <= CellLimit
    ensures |s| <= CellLimit ==> r == s
    ensures |s| > CellLimit ==> r == s[..MaxCellLength - |suffix|] + suffix && |r| == MaxCellLength
  {
    if |s| <= CellLimit then s else s[..MaxCellLength - |suffix|] + suffix
  }

  /**
   * The corrected cap changes nothing where the source is right: on the three-dot cells,
   * and on every cell within the limit.
   */
  lemma CellCapAgrees(s: string, suffix: string)
    requires |suffix| <= MaxCellLength
    ensures CellCap(s, Ellipsis) == CellCapAsWritten(s, Ellipsis)
    ensures |s| <= CellLimit ==> CellCap(s, suffix) == CellCapAsWritten(s, suffix)
  {
  }

  /** One cell as written: truncated to 49,990, capped at 50,000, then re-checked. */
  function CellAsWritten(field: string, suffix: string): string {
    RecheckAsWritten(CellCapAsWritten(SafeTruncateField(field, MaxCellLength, suffix), suffix))
  }

  /** One sheet row: from, subject, date and content, each truncated, capped and re-checked. */
  function EmailRow(e: ParsedEmail): seq<string> {
    [ CellAsWritten(e.from, Ellipsis), CellAsWritten(e.subject, Ellipsis),
      CellAsWritten(e.date, Ellipsis), CellAsWritten(e.content, TruncateSuffix) ]
  }

  /**
   * Every row has the four cells in order, each the field's truncation to 49,990
   * characters and so within the 50,000 limit: neither the cap nor the re-check ever
   * fires. A field that fits, and in particular content already capped by the parser,
   * passes unchanged.
   */
  lemma EmailRowShape(e: ParsedEmail)
    ensures |EmailRow(e)| == 4
    ensures EmailRow(e)[0] == SafeTruncateField(e.from, MaxCellLength, Ellipsis)
    ensures EmailRow(e)[1] == SafeTruncateField(e.subject, MaxCellLength, Ellipsis)
    ensures EmailRow(e)[2] == SafeTruncateField(e.date, MaxCellLength, Ellipsis)
    ensures EmailRow(e)[3] == SafeTruncateField(e.content, MaxCellLength, TruncateSuffix)
    ensures forall i :: 0 <= i < 4 ==> |EmailRow(e)[i]| <= MaxCellLength < CellLimit
    ensures |e.from| <= MaxCellLength ==> EmailRow(e)[0] == e.from
    ensures |e.subject| <= MaxCellLength ==> EmailRow(e)[1] == e.subject
    ensures |e.date| <= MaxCellLength ==> EmailRow(e)[2] == e.date
    ensures |e.content| <= MaxEmailBodyLength ==> EmailRow(e)[3] == e.content
  {
  }

  /** The row built with the corrected cap is the same row: the as-written cap never fires. */
  lemma EmailRowCorrectedAgrees(e: ParsedEmail)
    ensures EmailRow(e) ==
            [ CellCap(SafeTruncateField(e.from, MaxCellLength, Ellipsis), Ellipsis),
              CellCap(SafeTruncateField(e.subject, MaxCellLength, Ellipsis), Ellipsis),
              CellCap(SafeTruncateField(e.date, MaxCellLength, Ellipsis), Ellipsis),
              CellCap(SafeTruncateField(e.content, MaxCellLength, TruncateSuffix), TruncateSuffix) ]
  {
  }

  /**
   * The row-building loop: one row per parsed email, in order. Each row is built from the
   * truncated fields with the final cap, then every cell is re-checked against the limit.
   */
  method BuildRows(emails: seq<ParsedEmail>) returns (rows: seq<seq<string>>)
    ensures rows == Rows(emails)
    ensures |rows| == |emails|
    ensures forall k :: 0 <= k < |rows| ==> rows[k] == EmailRow(emails[k])
  {
    rows := [];
    for idx := 0 to |emails|
      invariant rows == Rows(emails[..idx])
    {
      var row := BuildRow(emails[idx]);
      assert emails[..idx + 1][..idx] == emails[..idx];
      rows := rows + [row];
    }
    assert emails[..|emails|] == emails;
    RowsEach(emails);
  }

  /** The body of the row-building loop for one email. */
  method BuildRow(e: ParsedEmail) returns (row: seq<string>)
    ensures row == EmailRow(e)
  {
    var content := SafeTruncateField(e.content, MaxCellLength, TruncateSuffix);
    var from := SafeTruncateField(e.from, MaxCellLength, Ellipsis);
    var subject := SafeTruncateField(e.subject, MaxCellLength, Ellipsis);
    var date := SafeTruncateField(e.date, MaxCellLength, Ellipsis);
    var capped := [CellCapAsWritten(from, Ellipsis), CellCapAsWritten(subject, Ellipsis),
                   CellCapAsWritten(date, Ellipsis), CellCapAsWritten(content, TruncateSuffix)];
    row := RecheckRow(capped);
    assert row == [row[0], row[1], row[2], row[3]];
  }

  /** The re-check loop over one built row: every cell over the limit is cut, in place. */
  method RecheckRow(cells: seq<string>) returns (row: seq<string>)
    ensures |row| == |cells|
    ensures forall j :: 0 <= j < |cells| ==> row[j] == RecheckAsWritten(cells[j])
  {
    row := cells;
    for i := 0 to |row|
      invariant |row| == |cells|
      invariant forall j :: 0 <= j < i ==> row[j] == RecheckAsWritten(cells[j])
      invariant forall j :: i <= j < |cells| ==> row[j] == cells[j]
    {
      row := row[i := RecheckAsWritten(row[i])];
    }
  }

  // ---------------------------------------------------------------------------
  // The processing loop

  /** The services and settings the loop depends on. */
  datatype Env = Env(
    fetch: string -> Option<Message>,
    cfg: Config,
    codecs: Codecs,
    dates: DateLib)

  function Parse(m: Message, env: Env): Option<ParsedEmail> {
    ParseEmailMessage(m, env.cfg, env.codecs, env.dates)
  }

  /** Fetching the message raises. */
  predicate FetchFails(id: string, env: Env) {
    env.fetch(id).None?
  }

  /** The message is fetched but the parser returns `None` (filtered out or malformed). */
  predicate FilteredOut(id: string, env: Env) {
    env.fetch(id).Some? && Parse(env.fetch(id).value, env).None?
  }

  /** The message is fetched and parsed into a record. */
  predicate Accepted(id: string, env: Env) {
    env.fetch(id).Some? && Parse(env.fetch(id).value, env).Some?
  }

  /**
   * The loop's state: the processed set, the parsed records, their ids awaiting the append
   * step, and the ids fetched so far (a trace of the calls made to the mail service).
   */
  datatype LoopState = LoopState(
    processed: set<string>,
    newEmails: seq<ParsedEmail>,
    pendingIds: seq<string>,
    fetched: seq<string>)

  /**
   * One turn of the loop: a processed id is skipped before anything else; otherwise the
   * message is fetched; a failing fetch leaves everything else alone; a `None` parse marks
   * the id at once; a record is kept with its id pending.
   */
  function Step(s: LoopState, id: string, env: Env): LoopState {
    if id in s.processed then s
    else
      var s' := s.(fetched := s.fetched + [id]);
      match env.fetch(id)
      case None => s'
      case Some(m) =>
        match Parse(m, env)
        case None => s'.(processed := s'.processed + {id})
        case Some(e) => s'.(newEmails := s'.newEmails + [e], pendingIds := s'.pendingIds + [id])
  }

  /** The loop over the listed ids, in order, from the loaded processed set. */
  function RunLoop(ids: seq<string>, start: set<string>, env: Env): LoopState {
    if ids == [] then LoopState(start, [], [], [])
    else Step(RunLoop(ids[..|ids| - 1], start, env), ids[|ids| - 1], env)
  }

  /** One turn of the loop, field by field. */
  lemma StepFacts(s: LoopState, id: string, env: Env)
    ensures id in s.processed ==> Step(s, id, env) == s
    ensures id !in s.processed ==>
              var t := Step(s, id, env);
              && t.fetched == s.fetched + [id]
              && t.processed == s.processed + (if FilteredOut(id, env) then {id} else {})
              && t.pendingIds == s.pendingIds + (if Accepted(id, env) then [id] else [])
              && t.newEmails == s.newEmails +
                   (if Accepted(id, env) then [Parse(env.fetch(id).value, env).value] else [])
  {
  }

  /** The loop state after the last listed id, from the state after the others. */
  lemma RunLoopLast(ids: seq<string>, start: set<string>, env: Env)
    requires ids != []
    ensures RunLoop(ids, start, env) == Step(RunLoop(ids[..|ids| - 1], start, env), ids[|ids| - 1], env)
    ensures forall x :: x in ids <==> x in ids[..|ids| - 1] || x == ids[|ids| - 1]
  {
    assert ids == ids[..|ids| - 1] + [ids[|ids| - 1]];
  }

  /**
   * An id ends up processed exactly when it already was, or it was listed and its message
   * was filtered out.
   */
  lemma {:induction false} RunLoopProcessed(ids: seq<string>, start: set<string>, env: Env)
    ensures forall x :: x in RunLoop(ids, start, env).processed <==>
                        x in start || (x in ids && FilteredOut(x, env))
  {
    if ids != [] {
      var init := ids[..|ids| - 1];
      RunLoopLast(ids, start, env);
      RunLoopProcessed(init, start, env);
      StepFacts(RunLoop(init, start, env), ids[|ids| - 1], env);
    }
  }

  /**
   * An id is fetched exactly when it was listed and not processed before: an id that is
   * already processed is never fetched.
   */
  lemma {:induction false} RunLoopFetched(ids: seq<string>, start: set<string>, env: Env)
    ensures forall x :: x in RunLoop(ids, start, env).fetched <==> x in ids && x !in start
  {
    if ids != [] {
      var init := ids[..|ids| - 1];
      RunLoopLast(ids, start, env);
      RunLoopProcessed(init, start, env);
      RunLoopFetched(init, start, env);
      StepFacts(RunLoop(init, start, env), ids[|ids| - 1], env);
    }
  }

  /** An id is pending exactly when it was listed, not processed before, and accepted. */
  lemma {:induction false} RunLoopPending(ids: seq<string>, start: set<string>, env: Env)
    ensures forall x :: x in RunLoop(ids, start, env).pendingIds <==> x in ids && x !in start && Accepted(x, env)
  {
    if ids != [] {
      var init := ids[..|ids| - 1];
      RunLoopLast(ids, start, env);
      RunLoopProcessed(init, start, env);
      RunLoopPending(init, start, env);
      StepFacts(RunLoop(init, start, env), ids[|ids| - 1], env);
    }
  }

  /** Each kept record comes from its pending id's message, in the same order. */
  lemma {:induction false} RunLoopRecords(ids: seq<string>, start: set<string>, env: Env)
    ensures var r := RunLoop(ids, start, env);
            |r.newEmails| == |r.pendingIds| &&
            forall k :: 0 <= k < |r.pendingIds| ==>
              Accepted(r.pendingIds[k], env) &&
              Parse(env.fetch(r.pendingIds[k]).value, env) == Some(r.newEmails[k])
  {
    if ids != [] {
      var init := ids[..|ids| - 1];
      var last := ids[|ids| - 1];
      RunLoopLast(ids, start, env);
      RunLoopRecords(init, start, env);
      var r0 := RunLoop(init, start, env);
      var r := RunLoop(ids, start, env);
      StepFacts(r0, last, env);
      if last !in r0.processed && Accepted(last, env) {
        forall k | 0 <= k < |r.pendingIds|
          ensures Accepted(r.pendingIds[k], env) &&
                  Parse(env.fetch(r.pendingIds[k]).value, env) == Some(r.newEmails[k])
        {
          if k < |r0.pendingIds| {
            assert r.pendingIds[k] == r0.pendingIds[k] && r.newEmails[k] == r0.newEmails[k];
          }
        }
      }
    }
  }

  /**
   * The processing loop of `main`: the store is consulted first and a processed id is
   * skipped; a message parsing to `None` is marked at once; a record is kept with its id.
   */
  method ProcessMessages(state: StateManager, ids: seq<string>, env: Env)
    returns (newEmails: seq<ParsedEmail>, pendingIds: seq<string>, ghost fetched: seq<string>)
    modifies state
    ensures LoopState(state.processedIds, newEmails, pendingIds, fetched) ==
            RunLoop(ids, old(state.processedIds), env)
  {
    newEmails, pendingIds, fetched := [], [], [];
    ghost var start := state.processedIds;
    for k := 0 to |ids|
      invariant LoopState(state.processedIds, newEmails, pendingIds, fetched) == RunLoop(ids[..k], start, env)
    {
      assert ids[..k + 1][..k] == ids[..k];
      var id := ids[k];
      var seen := state.IsProcessed(id);
      if !seen {
        fetched := fetched + [id];
        match env.fetch(id) {
          case None =>
          case Some(m) =>
            match Parse(m, env) {
              case None =>
                state.MarkProcessed(id);
              case Some(e) =>
                newEmails := newEmails + [e];
                pendingIds := pendingIds + [id];
            }
        }
      }
    }
    assert ids[..|ids|] == ids;
  }

  // ---------------------------------------------------------------------------
  // Appending, with the 50-row batch fallback

  const BatchSize: nat := 50

  function FirstBatch<T>(rows: seq<T>): (b: seq<T>)
    ensures |b| == Min(BatchSize, |rows|) && b == rows[..|b|]
  {
    rows[..Min(BatchSize, |rows|)]
  }

  function AfterFirstBatch<T>(rows: seq<T>): (b: seq<T>)
    ensures rows == FirstBatch(rows) + b
  {
    rows[Min(BatchSize, |rows|)..]
  }

  /** `[rows[i:i+50] for i in range(0, len(rows), 50)]`. */
  function Batches<T>(rows: seq<T>): seq<seq<T>>
    decreases |rows|
  {
    if rows == [] then [] else [FirstBatch(rows)] + Batches(AfterFirstBatch(rows))
  }

  function Flatten<T>(bs: seq<seq<T>>): seq<T> {
    if bs == [] then [] else bs[0] + Flatten(bs[1..])
  }

  /**
   * Every batch holds between 1 and 50 rows, all but the last exactly 50, and the batches
   * concatenated in order give back the rows.
   */
  lemma {:induction false} BatchesPartition<T>(rows: seq<T>)
    ensures Flatten(Batches(rows)) == rows
    ensures forall k :: 0 <= k < |Batches(rows)| ==> 0 < |Batches(rows)[k]| <= BatchSize
    ensures forall k :: 0 <= k < |Batches(rows)| - 1 ==> |Batches(rows)[k]| == BatchSize
    decreases |rows|
  {
    if rows != [] {
      var rest := AfterFirstBatch(rows);
      BatchesPartition(rest);
      assert Batches(rows) == [FirstBatch(rows)] + Batches(rest);
      assert Batches(rows)[1..] == Batches(rest);
      if rest != [] {
        assert |FirstBatch(rows)| == BatchSize;
      }
    }
  }

  /** Some batch of the fallback goes through. */
  predicate AnyBatchOk(rows: seq<seq<string>>, append: seq<seq<string>> -> bool)
    decreases |rows|
  {
    rows != [] && (append(FirstBatch(rows)) || AnyBatchOk(AfterFirstBatch(rows), append))
  }

  /** Every batch of the fallback goes through. */
  predicate AllBatchesOk(rows: seq<seq<string>>, append: seq<seq<string>> -> bool)
    decreases |rows|
  {
    rows == [] || (append(FirstBatch(rows)) && AllBatchesOk(AfterFirstBatch(rows), append))
  }

  lemma {:induction false} AnyBatchOkIff(rows: seq<seq<string>>, append: seq<seq<string>> -> bool)
    ensures AnyBatchOk(rows, append) <==>
            exists k :: 0 <= k < |Batches(rows)| && append(Batches(rows)[k])
    decreases |rows|
  {
    if rows != [] {
      var rest := AfterFirstBatch(rows);
      AnyBatchOkIff(rest, append);
      assert Batches(rows) == [FirstBatch(rows)] + Batches(rest);
      assert Batches(rows)[0] == FirstBatch(rows);
      if exists k :: 0 <= k < |Batches(rest)| && append(Batches(rest)[k]) {
        var k :| 0 <= k < |Batches(rest)| && append(Batches(rest)[k]);
        assert Batches(rows)[k + 1] == Batches(rest)[k];
      }
      if exists k :: 0 <= k < |Batches(rows)| && append(Batches(rows)[k]) {
        var k :| 0 <= k < |Batches(rows)| && append(Batches(rows)[k]);
        if k > 0 {
          assert Batches(rest)[k - 1] == Batches(rows)[k];
        }
      }
    }
  }

  /** With at least one row, every batch going through means some batch went through. */
  lemma {:induction false} AllBatchesOkImpliesAny(rows: seq<seq<string>>, append: seq<seq<string>> -> bool)
    requires rows != [] && AllBatchesOk(rows, append)
    ensures AnyBatchOk(rows, append)
  {
  }

  /** The rows of a failed batch that go through one at a time. */
  function RowsOneByOne(batch: seq<seq<string>>, append: seq<seq<string>> -> bool): seq<seq<string>> {
    if batch == [] then []
    else
      var last := batch[|batch| - 1];
      RowsOneByOne(batch[..|batch| - 1], append) + (if append([last]) then [last] else [])
  }

  /** The rows the fallback puts on the sheet: whole batches, or a failed batch's rows one by one. */
  function FallbackAppended(rows: seq<seq<string>>, append: seq<seq<string>> -> bool): seq<seq<string>>
    decreases |rows|
  {
    if rows == [] then []
    else
      var b := FirstBatch(rows);
      (if append(b) then b else RowsOneByOne(b, append)) + FallbackAppended(AfterFirstBatch(rows), append)
  }

  /** The rows on the sheet after the append step. */
  function AppendedRows(rows: seq<seq<string>>, append: seq<seq<string>> -> bool): seq<seq<string>> {
    if append(rows) then rows else FallbackAppended(rows, append)
  }

  lemma {:induction false} RowsOneByOneFromBatch(batch: seq<seq<string>>, append: seq<seq<string>> -> bool)
    ensures forall r :: r in RowsOneByOne(batch, append) <==> r in batch && append([r])
  {
    if batch != [] {
      RowsOneByOneFromBatch(batch[..|batch| - 1], append);
      assert batch == batch[..|batch| - 1] + [batch[|batch| - 1]];
    }
  }

  /**
   * The fallback only ever puts listed rows on the sheet, a row of a failed batch exactly
   * when it goes through on its own, and all the rows, in order, when every batch succeeds.
   */
  lemma {:induction false} FallbackAppendedSpec(rows: seq<seq<string>>, append: seq<seq<string>> -> bool)
    ensures forall r :: r in FallbackAppended(rows, append) ==> r in rows
    ensures AllBatchesOk(rows, append) ==> FallbackAppended(rows, append) == rows
    decreases |rows|
  {
    if rows != [] {
      var b := FirstBatch(rows);
      var rest := AfterFirstBatch(rows);
      FallbackAppendedSpec(rest, append);
      RowsOneByOneFromBatch(b, append);
    }
  }

  /** One batch of the fallback, starting at row `i`, in terms of the three fallback functions. */
  lemma FallbackUnfold(rows: seq<seq<string>>, i: int, j: int, b: seq<seq<string>>,
                       append: seq<seq<string>> -> bool)
    requires 0 <= i < |rows| && j == Min(i + BatchSize, |rows|) && b == rows[i..j]
    ensures FallbackAppended(rows[i..], append) ==
            (if append(b) then b else RowsOneByOne(b, append)) + FallbackAppended(rows[j..], append)
    ensures AnyBatchOk(rows[i..], append) == (append(b) || AnyBatchOk(rows[j..], append))
    ensures AllBatchesOk(rows[i..], append) == (append(b) && AllBatchesOk(rows[j..], append))
  {
    var rest := rows[i..];
    assert b == FirstBatch(rest);
    assert rows[j..] == AfterFirstBatch(rest);
  }

  /**
   * Rows that only go through one at a time do not make the append step succeed: with a
   * sheet that accepts single rows only, every row of one batch ends up on the sheet and
   * yet the step fails, so the run aborts before marking their ids.
   */
  lemma SingleRowsDoNotCount(rows: seq<seq<string>>, append: seq<seq<string>> -> bool)
    requires 2 <= |rows| <= BatchSize
    requires forall r :: append([r])
    requires forall rs :: |rs| >= 2 ==> !append(rs)
    ensures AppendedRows(rows, append) == rows
    ensures !(append(rows) || AnyBatchOk(rows, append))
  {
    assert FirstBatch(rows) == rows;
    assert AfterFirstBatch(rows) == [];
    assert !append(rows);
    assert !AnyBatchOk([], append);
    RowsOneByOneAll(rows, append);
    assert FallbackAppended(rows, append) == RowsOneByOne(rows, append) + FallbackAppended([], append);
  }

  lemma {:induction false} RowsOneByOneAll(batch: seq<seq<string>>, append: seq<seq<string>> -> bool)
    requires forall r :: append([r])
    ensures RowsOneByOne(batch, append) == batch
  {
    if batch != [] {
      RowsOneByOneAll(batch[..|batch| - 1], append);
      assert batch == batch[..|batch| - 1] + [batch[|batch| - 1]];
    }
  }

  /** The source's inner loop: each row of a failed batch is tried on its own. */
  method AppendOneByOne(batch: seq<seq<string>>, append: seq<seq<string>> -> bool)
    returns (appended: seq<seq<string>>)
    ensures appended == RowsOneByOne(batch, append)
  {
    appended := [];
    for j := 0 to |batch|
      invariant appended == RowsOneByOne(batch[..j], append)
    {
      assert batch[..j + 1][..j] == batch[..j];
      if append([batch[j]]) {
        appended := appended + [batch[j]];
      }
    }
    assert batch[..|batch|] == batch;
  }

  /** One batch of the fallback: the batch at once, and on failure its rows one by one. */
  method AppendBatch(batch: seq<seq<string>>, append: seq<seq<string>> -> bool)
    returns (ok: bool, appended: seq<seq<string>>)
    ensures ok == append(batch)
    ensures appended == if ok then batch else RowsOneByOne(batch, append)
  {
    ok := append(batch);
    if ok {
      appended := batch;
    } else {
      appended := AppendOneByOne(batch, append);
    }
  }

  /** The fallback loop's invariant on the rows appended, carried across one batch. */
  lemma BatchStep(rows: seq<seq<string>>, i: int, j: int, b: seq<seq<string>>,
                  append: seq<seq<string>> -> bool, appended: seq<seq<string>>,
                  batchAppended: seq<seq<string>>)
    requires 0 <= i < |rows| && j == Min(i + BatchSize, |rows|) && b == rows[i..j]
    requires batchAppended == if append(b) then b else RowsOneByOne(b, append)
    requires appended + FallbackAppended(rows[i..], append) == FallbackAppended(rows, append)
    ensures (appended + batchAppended) + FallbackAppended(rows[j..], append) == FallbackAppended(rows, append)
  {
    FallbackUnfold(rows, i, j, b, append);
    var restAppended := FallbackAppended(rows[j..], append);
    assert (appended + batchAppended) + restAppended == appended + (batchAppended + restAppended);
  }

  /** The fallback loop's invariant on "some batch went through", carried across one batch. */
  lemma BatchStepAny(rows: seq<seq<string>>, i: int, j: int, b: seq<seq<string>>,
                     append: seq<seq<string>> -> bool, anyBefore: bool)
    requires 0 <= i < |rows| && j == Min(i + BatchSize, |rows|) && b == rows[i..j]
    requires (anyBefore || AnyBatchOk(rows[i..], append)) == AnyBatchOk(rows, append)
    ensures ((anyBefore || append(b)) || AnyBatchOk(rows[j..], append)) == AnyBatchOk(rows, append)
  {
    FallbackUnfold(rows, i, j, b, append);
  }

  /** The fallback loop's invariant on "no batch failed", carried across one batch. */
  lemma BatchStepAll(rows: seq<seq<string>>, i: int, j: int, b: seq<seq<string>>,
                     append: seq<seq<string>> -> bool, noneFailed: bool)
    requires 0 <= i < |rows| && j == Min(i + BatchSize, |rows|) && b == rows[i..j]
    requires (noneFailed && AllBatchesOk(rows[i..], append)) == AllBatchesOk(rows, append)
    ensures ((noneFailed && append(b)) && AllBatchesOk(rows[j..], append)) == AllBatchesOk(rows, append)
  {
    FallbackUnfold(rows, i, j, b, append);
  }

  /**
   * The fallback loop: the batches of 50 in order, each failing batch retried row by row,
   * counting the batches that go through and those that fail.
   */
  method AppendInBatches(rows: seq<seq<string>>, append: seq<seq<string>> -> bool)
    returns (successfulBatches: nat, failedBatches: nat, appended: seq<seq<string>>)
    ensures successfulBatches > 0 <==> AnyBatchOk(rows, append)
    ensures failedBatches == 0 <==> AllBatchesOk(rows, append)
    ensures appended == FallbackAppended(rows, append)
  {
    successfulBatches, failedBatches := 0, 0;
    appended := [];
    var i := 0;
    while i < |rows|
      invariant 0 <= i <= |rows|
      invariant appended + FallbackAppended(rows[i..], append) == FallbackAppended(rows, append)
      invariant (successfulBatches > 0 || AnyBatchOk(rows[i..], append)) == AnyBatchOk(rows, append)
      invariant (failedBatches == 0 && AllBatchesOk(rows[i..], append)) == AllBatchesOk(rows, append)
      decreases |rows| - i
    {
      var j := Min(i + BatchSize, |rows|);
      var batch := rows[i..j];
      var batchOk, batchAppended := AppendBatch(batch, append);
      BatchStep(rows, i, j, batch, append, appended, batchAppended);
      BatchStepAny(rows, i, j, batch, append, successfulBatches > 0);
      BatchStepAll(rows, i, j, batch, append, failedBatches == 0);
      if batchOk {
        successfulBatches := successfulBatches + 1;
      } else {
        failedBatches := failedBatches + 1;
      }
      appended := appended + batchAppended;
      i := j;
    }
    assert rows[i..] == [];
  }

  /**
   * The append step: the whole list at once, and on failure the batch fallback. It
   * succeeds when the whole list, or some batch, goes through, or when no batch fails;
   * the rows on the sheet are `AppendedRows`.
   */
  method AppendWithFallback(rows: seq<seq<string>>, append: seq<seq<string>> -> bool)
    returns (ok: bool, appended: seq<seq<string>>)
    ensures ok <==> append(rows) || rows == [] || AnyBatchOk(rows, append)
    ensures appended == AppendedRows(rows, append)
  {
    if append(rows) {
      return true, rows;
    }
    var successfulBatches, failedBatches;
    successfulBatches, failedBatches, appended := AppendInBatches(rows, append);
    ok := successfulBatches > 0 || failedBatches == 0;
    if rows != [] && AllBatchesOk(rows, append) {
      AllBatchesOkImpliesAny(rows, append);
    }
  }

  // ---------------------------------------------------------------------------
  // The whole run

  /**
   * How a run ends: no listed message; no new record; the rows appended and the ids
   * marked; or the append step failed, which aborts the run.
   */
  datatype RunStatus = NoMessages | NothingNew | Appended | AppendFailed

  datatype RunResult = RunResult(status: RunStatus, processed: set<string>, sheet: seq<seq<string>>)

  /** `[f(x) for x in xs]`. */
  function MapSeq<A, B>(xs: seq<A>, f: A -> B): (ys: seq<B>)
    ensures |ys| == |xs|
  {
    if xs == [] then [] else MapSeq(xs[..|xs| - 1], f) + [f(xs[|xs| - 1])]
  }

  lemma {:induction false} MapSeqEach<A, B>(xs: seq<A>, f: A -> B)
    ensures forall k :: 0 <= k < |xs| ==> MapSeq(xs, f)[k] == f(xs[k])
  {
    if xs != [] {
      var init := xs[..|xs| - 1];
      MapSeqEach(init, f);
      assert forall k :: 0 <= k < |init| ==> init[k] == xs[k];
    }
  }

  /** The rows as a function of the parsed emails. */
  function Rows(emails: seq<ParsedEmail>): (rows: seq<seq<string>>)
    ensures |rows| == |emails|
  {
    MapSeq(emails, EmailRow)
  }

  /** One row per email, in order. */
  lemma RowsEach(emails: seq<ParsedEmail>)
    ensures forall k :: 0 <= k < |emails| ==> Rows(emails)[k] == EmailRow(emails[k])
  {
    MapSeqEach(emails, EmailRow);
  }

  /** The run as a function of the listed ids, the loaded store and the two services. */
  function RunSpec(ids: seq<string>, start: set<string>, env: Env, append: seq<seq<string>> -> bool): RunResult {
    if ids == [] then RunResult(NoMessages, start, [])
    else
      var r := RunLoop(ids, start, env);
      if r.newEmails == [] then RunResult(NothingNew, r.processed, [])
      else
        var rows := Rows(r.newEmails);
        var sheet := AppendedRows(rows, append);
        if append(rows) || AnyBatchOk(rows, append) then
          RunResult(Appended, r.processed + (set x | x in r.pendingIds), sheet)
        else RunResult(AppendFailed, r.processed, sheet)
  }

  /**
   * After a run an id is processed exactly when it already was, or it was listed and
   * filtered out, or it was listed, new and accepted and the append step succeeded. So an
   * accepted id is marked only after its rows were appended, and an id whose fetch failed
   * is never marked.
   */
  lemma RunMarks(ids: seq<string>, start: set<string>, env: Env, append: seq<seq<string>> -> bool)
    ensures var res := RunSpec(ids, start, env, append);
            forall x :: x in res.processed <==>
              || x in start
              || (x in ids && FilteredOut(x, env))
              || (res.status == Appended && x in ids && x !in start && Accepted(x, env))
  {
    RunLoopProcessed(ids, start, env);
    RunLoopPending(ids, start, env);
    var res := RunSpec(ids, start, env, append);
    var r := RunLoop(ids, start, env);
    if ids != [] && r.newEmails != [] {
      var ok := append(Rows(r.newEmails)) || AnyBatchOk(Rows(r.newEmails), append);
      assert res.status == Appended <==> ok;
      assert res.processed == if ok then r.processed + (set x | x in r.pendingIds) else r.processed;
    }
  }

  /** A message whose handling fails is not marked, so the next run tries it again. */
  lemma FailedNeverMarked(ids: seq<string>, start: set<string>, env: Env, append: seq<seq<string>> -> bool, x: string)
    requires FetchFails(x, env) && x !in start
    ensures x !in RunSpec(ids, start, env, append).processed
  {
    RunMarks(ids, start, env, append);
  }

  /**
   * `main`: nothing to do without listed messages; the loop; nothing more without new
   * records; the rows; the append step, whose failure aborts the run before any parsed id
   * is marked; then the pending ids are marked.
   */
  method Run(state: StateManager, ids: seq<string>, env: Env, append: seq<seq<string>> -> bool)
    returns (status: RunStatus, sheet: seq<seq<string>>)
    modifies state
    ensures RunResult(status, state.processedIds, sheet) == RunSpec(ids, old(state.processedIds), env, append)
  {
    if ids == [] {
      return NoMessages, [];
    }
    var newEmails, pendingIds, fetched := ProcessMessages(state, ids, env);
    if newEmails == [] {
      return NothingNew, [];
    }
    var rows := BuildRows(newEmails);
    assert rows == Rows(newEmails);
    var ok;
    ok, sheet := AppendWithFallback(rows, append);
    if !ok {
      return AppendFailed, sheet;
    }
    state.MarkMultipleProcessed(pendingIds);
    status := Appended;
  }
}
