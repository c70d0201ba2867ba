/** The evidence importer's row loop: per-operation state folded from metric rows, and the semantic payload that the
    documentation promises not to depend on row order or repetition. */
module Evidence {
  import opened Orders
  import opened BoundedSets
  import DispatchTrace

  type Key = (string, string)

  /** A metric row after validation; `skippedPaths` is stripped. */
  datatype Row = Row(service: string, operation: string, testNode: string, xfail: bool, awsValidated: bool,
                     snapshot: bool, skippedPaths: string, trace: seq<DispatchTrace.Entry>)

  /** What parsing and validating a CSV record yields. */
  datatype Parsed = Valid(row: Row) | Invalid(message: string)

  /** The limits that reach the fold, and the digest and the class of a trace. */
  datatype Setting = Setting(maxTokens: nat, maxSamples: nat, digest: seq<DispatchTrace.Entry> -> string,
                             classify: seq<DispatchTrace.Entry> -> string)
  {
    function Classes(row: Row): set<string> { {classify(row.trace)} }
    function Samples(row: Row): set<(string, string)> { {(digest(row.trace), row.testNode)} }
  }

  /** The largest depth and the markers observed for an operation. */
  datatype Marks = Marks(maxTraceDepth: nat, awsValidated: bool, snapshot: bool, snapshotSkip: bool, xfail: bool)
  {
    function With(row: Row): Marks {
      Marks(if |row.trace| > maxTraceDepth then |row.trace| else maxTraceDepth,
            awsValidated || row.awsValidated, snapshot || row.snapshot, snapshotSkip || row.skippedPaths != "",
            xfail || row.xfail)
    }
  }

  /** The fields of an operation that enter the semantic payload. Its lists are these sets in ascending order. */
  datatype Semantics = Semantics(
    marks: Marks, origins: set<string>, outcomes: set<string>, samples: set<(string, string)>,
    traceClasses: set<string>)

  function KeyOf(row: Row): Key { (row.service, row.operation) }

  // ---------------------------------------------------------------- reference: what the rows contain

  function Collect<T>(rows: seq<Row>, key: Key, f: Row -> set<T>): set<T> {
    if rows == [] then {}
    else Collect(rows[..|rows| - 1], key, f) + if KeyOf(rows[|rows| - 1]) == key then f(rows[|rows| - 1]) else {}
  }

  lemma {:induction false} CollectMember<T>(rows: seq<Row>, key: Key, f: Row -> set<T>, x: T)
    ensures x in Collect(rows, key, f) <==> exists row :: row in rows && KeyOf(row) == key && x in f(row)
  {
    if rows != [] {
      var front, last := rows[..|rows| - 1], rows[|rows| - 1];
      CollectMember(front, key, f, x);
      assert rows == front + [last];
      assert forall row :: row in rows <==> row in front || row == last;
    }
  }

  /** Neither order nor repetition of the rows matters to what they contain. */
  lemma CollectSame<T(!new)>(rows: seq<Row>, rows': seq<Row>, key: Key, f: Row -> set<T>)
    requires forall row :: row in rows <==> row in rows'
    ensures Collect(rows, key, f) == Collect(rows', key, f)
  {
    forall x ensures x in Collect(rows, key, f) <==> x in Collect(rows', key, f) {
      CollectMember(rows, key, f, x);
      CollectMember(rows', key, f, x);
    }
  }

  lemma CollectAppend<T>(rows: seq<Row>, row: Row, key: Key, f: Row -> set<T>)
    ensures Collect(rows + [row], key, f) == Collect(rows, key, f) + if KeyOf(row) == key then f(row) else {}
  {
  }

  lemma CollectSkip<T>(rows: seq<Row>, row: Row, key: Key, f: Row -> set<T>)
    requires KeyOf(row) != key
    ensures Collect(rows + [row], key, f) == Collect(rows, key, f)
  {
  }

  function Depths(row: Row): set<nat> { {|row.trace|} }
  function AwsMarks(row: Row): set<bool> { {row.awsValidated} }
  function SnapshotMarks(row: Row): set<bool> { {row.snapshot} }
  function SkipMarks(row: Row): set<bool> { {row.skippedPaths != ""} }
  function XfailMarks(row: Row): set<bool> { {row.xfail} }
  function Origins(row: Row): set<string> { DispatchTrace.Origins(row.trace) }
  function Outcomes(row: Row): set<string> { DispatchTrace.Outcomes(row.trace) }

  ghost predicate IsMax(m: nat, depths: set<nat>) {
    (forall d :: d in depths ==> d <= m) && (m in depths || m == 0)
  }

  ghost predicate Marked(rows: seq<Row>, key: Key, m: Marks) {
    && IsMax(m.maxTraceDepth, Collect(rows, key, Depths))
    && m.awsValidated == (true in Collect(rows, key, AwsMarks))
    && m.snapshot == (true in Collect(rows, key, SnapshotMarks))
    && m.snapshotSkip == (true in Collect(rows, key, SkipMarks))
    && m.xfail == (true in Collect(rows, key, XfailMarks))
  }

  /** The payload of an operation, said without any fold: marks that some row has, the largest depth, all classes, and
      the smallest tokens and samples that occur. */
  ghost predicate Summarizes(x: Setting, rows: seq<Row>, key: Key, s: Semantics) {
    && Marked(rows, key, s.marks)
    && s.traceClasses == Collect(rows, key, x.Classes)
    && KeepsSmallest(StringLess, x.maxTokens, Collect(rows, key, Origins), s.origins)
    && KeepsSmallest(StringLess, x.maxTokens, Collect(rows, key, Outcomes), s.outcomes)
    && KeepsSmallest(PairLess, x.maxSamples, Collect(rows, key, x.Samples), s.samples)
  }

  predicate Mentions(rows: seq<Row>, key: Key) {
    exists i :: 0 <= i < |rows| && rows[i].service == key.0 && rows[i].operation == key.1
  }

  /** One operation per key that occurs, each summarizing its rows. */
  ghost predicate IsPayload(x: Setting, rows: seq<Row>, payload: map<Key, Semantics>) {
    && (forall key :: key in payload <==> Mentions(rows, key))
    && (forall key :: key in payload ==> Summarizes(x, rows, key, payload[key]))
  }

  lemma MarkedUnique(rows: seq<Row>, rows': seq<Row>, key: Key, m: Marks, m': Marks)
    requires SameRows(rows, rows') && Marked(rows, key, m) && Marked(rows', key, m')
    ensures m == m'
  {
    CollectSame(rows, rows', key, Depths);
    CollectSame(rows, rows', key, AwsMarks);
    CollectSame(rows, rows', key, SnapshotMarks);
    CollectSame(rows, rows', key, SkipMarks);
    CollectSame(rows, rows', key, XfailMarks);
  }

  lemma SummaryUnique(x: Setting, rows: seq<Row>, rows': seq<Row>, key: Key, s: Semantics, s': Semantics)
    requires SameRows(rows, rows')
    requires Summarizes(x, rows, key, s) && Summarizes(x, rows', key, s')
    ensures s == s'
  {
    MarkedUnique(rows, rows', key, s.marks, s'.marks);
    CollectSame(rows, rows', key, x.Classes);
    CollectSame(rows, rows', key, Origins);
    CollectSame(rows, rows', key, Outcomes);
    CollectSame(rows, rows', key, x.Samples);
    StringOrder();
    PairOrder();
    SmallestUnique(StringLess, x.maxTokens, Collect(rows, key, Origins), s.origins, s'.origins);
    SmallestUnique(StringLess, x.maxTokens, Collect(rows, key, Outcomes), s.outcomes, s'.outcomes);
    SmallestUnique(PairLess, x.maxSamples, Collect(rows, key, x.Samples), s.samples, s'.samples);
  }

  ghost predicate SameRows(rows: seq<Row>, rows': seq<Row>) {
    forall row :: row in rows <==> row in rows'
  }

  lemma SameMentions(rows: seq<Row>, rows': seq<Row>, key: Key)
    requires SameRows(rows, rows')
    ensures Mentions(rows, key) <==> Mentions(rows', key)
  {
    if Mentions(rows, key) {
      var i :| 0 <= i < |rows| && rows[i].service == key.0 && rows[i].operation == key.1;
      assert rows[i] in rows';
    }
    if Mentions(rows', key) {
      var i :| 0 <= i < |rows'| && rows'[i].service == key.0 && rows'[i].operation == key.1;
      assert rows'[i] in rows;
    }
  }

  lemma SamePayloadAt(x: Setting, rows: seq<Row>, rows': seq<Row>, p: map<Key, Semantics>, p': map<Key, Semantics>,
                      key: Key)
    requires SameRows(rows, rows') && IsPayload(x, rows, p) && IsPayload(x, rows', p')
    ensures (key in p <==> key in p') && (key in p ==> p[key] == p'[key])
  {
    SameMentions(rows, rows', key);
    if key in p {
      assert Summarizes(x, rows, key, p[key]) && Summarizes(x, rows', key, p'[key]);
      SummaryUnique(x, rows, rows', key, p[key], p'[key]);
    }
  }

  lemma MapsEqual<K, V>(p: map<K, V>, p': map<K, V>)
    requires forall key :: (key in p <==> key in p') && (key in p ==> p[key] == p'[key])
    ensures p == p'
  {
  }

  /** Changing the order of the rows or repeating some of them does not change the semantic payload. */
  lemma PayloadIgnoresOrderAndRepetition(x: Setting, rows: seq<Row>, rows': seq<Row>, p: map<Key, Semantics>,
                                         p': map<Key, Semantics>)
    requires SameRows(rows, rows') && IsPayload(x, rows, p) && IsPayload(x, rows', p')
    ensures p == p'
  {
    forall key ensures (key in p <==> key in p') && (key in p ==> p[key] == p'[key]) {
      SamePayloadAt(x, rows, rows', p, p', key);
    }
    MapsEqual(p, p');
  }

  // ---------------------------------------------------------------- the fold

  /** `_OperationState`. */
  class OperationState {
    const key: Key
    var observations: nat
    var traceClassCounts: map<string, nat>
    var origins: set<string>
    var outcomes: set<string>
    var samples: set<(string, string)>
    var marks: Marks

    constructor (key: Key)
      ensures this.key == key && observations == 0 && traceClassCounts == map[] && View() == NOTHING
    {
      this.key := key;
      observations, traceClassCounts, marks := 0, map[], Marks(0, false, false, false, false);
      origins, outcomes, samples := {}, {}, {};
    }

    /** `_operation_payload`, as far as `_semantic_payload` keeps it. */
    function View(): Semantics
      reads this
    {
      Semantics(marks, origins, outcomes, samples, traceClassCounts.Keys)
    }

    /** The loop over the entries of one trace. */
    method AddTokens(x: Setting, trace: seq<DispatchTrace.Entry>)
      modifies this`origins, this`outcomes
      ensures Kept(StringLess, x.maxTokens, old(origins), DispatchTrace.Origins(trace), origins)
      ensures Kept(StringLess, x.maxTokens, old(outcomes), DispatchTrace.Outcomes(trace), outcomes)
    {
      StringOrder();
      var i := 0;
      KeptNothing(StringLess, x.maxTokens, origins);
      KeptNothing(StringLess, x.maxTokens, outcomes);
      assert DispatchTrace.Origins(trace[..0]) == {} && DispatchTrace.Outcomes(trace[..0]) == {};
      while i < |trace|
        invariant 0 <= i <= |trace|
        invariant Kept(StringLess, x.maxTokens, old(origins), DispatchTrace.Origins(trace[..i]), origins)
        invariant Kept(StringLess, x.maxTokens, old(outcomes), DispatchTrace.Outcomes(trace[..i]), outcomes)
      {
        OneMoreEntry(trace, i);
        var o := AddBounded(StringLess, origins, trace[i].origin, x.maxTokens);
        KeptTwice(StringLess, x.maxTokens, old(origins), DispatchTrace.Origins(trace[..i]), origins, {trace[i].origin},
                  o);
        var u := AddBounded(StringLess, outcomes, trace[i].outcome, x.maxTokens);
        KeptTwice(StringLess, x.maxTokens, old(outcomes), DispatchTrace.Outcomes(trace[..i]), outcomes,
                  {trace[i].outcome}, u);
        origins, outcomes := o, u;
        i := i + 1;
      }
      assert trace[..i] == trace;
    }

    /** The body of the row loop, after validation. */
    method Observe(x: Setting, row: Row)
      modifies this
      ensures RowStep(x, row, old(View()), View())
      ensures observations == old(observations) + 1
      ensures traceClassCounts.Keys == old(traceClassCounts).Keys + {x.classify(row.trace)}
      ensures forall c :: c in traceClassCounts ==>
                traceClassCounts[c] == (if c in old(traceClassCounts) then old(traceClassCounts)[c] else 0) +
                                       (if c == x.classify(row.trace) then 1 else 0)
    {
      observations := observations + 1;
      traceClassCounts := Counted(traceClassCounts, x.classify(row.trace));
      marks := marks.With(row);
      AddTokens(x, row.trace);
      PairOrder();
      samples := AddBounded(PairLess, samples, (x.digest(row.trace), row.testNode), x.maxSamples);
    }
  }

  /** What one row does to the operation it is about. */
  ghost predicate RowStep(x: Setting, row: Row, s: Semantics, s': Semantics) {
    && s'.marks == s.marks.With(row)
    && s'.traceClasses == s.traceClasses + x.Classes(row)
    && Kept(StringLess, x.maxTokens, s.origins, Origins(row), s'.origins)
    && Kept(StringLess, x.maxTokens, s.outcomes, Outcomes(row), s'.outcomes)
    && Kept(PairLess, x.maxSamples, s.samples, x.Samples(row), s'.samples)
  }

  /** `Counter` incremented at one class. */
  function Counted(counts: map<string, nat>, c: string): map<string, nat> {
    counts[c := 1 + if c in counts then counts[c] else 0]
  }

  lemma MarkedAppend(rows: seq<Row>, row: Row, m: Marks)
    requires Marked(rows, KeyOf(row), m)
    ensures Marked(rows + [row], KeyOf(row), m.With(row))
  {
  }

  lemma MarkedSkip(rows: seq<Row>, row: Row, key: Key, m: Marks)
    requires Marked(rows, key, m) && KeyOf(row) != key
    ensures Marked(rows + [row], key, m)
  {
  }

  /** What one more row of an operation does to its summary. */
  lemma RowSummarized(x: Setting, rows: seq<Row>, row: Row, s: Semantics, s': Semantics)
    requires Summarizes(x, rows, KeyOf(row), s)
    requires RowStep(x, row, s, s')
    ensures Summarizes(x, rows + [row], KeyOf(row), s')
  {
    var key := KeyOf(row);
    MarkedAppend(rows, row, s.marks);
    CollectAppend(rows, row, key, x.Classes);
    CollectAppend(rows, row, key, Origins);
    CollectAppend(rows, row, key, Outcomes);
    CollectAppend(rows, row, key, x.Samples);
  }

  /** A row of another operation does nothing to it. */
  lemma OtherRowSummarized(x: Setting, rows: seq<Row>, row: Row, key: Key, s: Semantics)
    requires Summarizes(x, rows, key, s) && KeyOf(row) != key
    ensures Summarizes(x, rows + [row], key, s)
  {
    MarkedSkip(rows, row, key, s.marks);
    CollectSkip(rows, row, key, x.Classes);
    CollectSkip(rows, row, key, Origins);
    CollectSkip(rows, row, key, Outcomes);
    CollectSkip(rows, row, key, x.Samples);
  }

  lemma OneMoreEntry(t: seq<DispatchTrace.Entry>, i: nat)
    requires i < |t|
    ensures DispatchTrace.Origins(t[..i + 1]) == DispatchTrace.Origins(t[..i]) + {t[i].origin}
    ensures DispatchTrace.Outcomes(t[..i + 1]) == DispatchTrace.Outcomes(t[..i]) + {t[i].outcome}
  {
  }

  // ---------------------------------------------------------------- the row loop

  const NOTHING: Semantics := Semantics(Marks(0, false, false, false, false), {}, {}, {}, {})

  function At(p: map<Key, Semantics>, key: Key): Semantics { if key in p then p[key] else NOTHING }

  lemma {:induction false} CollectNothing<T>(rows: seq<Row>, key: Key, f: Row -> set<T>)
    requires !Mentions(rows, key)
    ensures Collect(rows, key, f) == {}
  {
    if rows != [] {
      var front := rows[..|rows| - 1];
      assert forall i :: 0 <= i < |front| ==> front[i] == rows[i];
      CollectNothing(front, key, f);
    }
  }

  lemma NothingSummarizes(x: Setting, rows: seq<Row>, key: Key)
    requires !Mentions(rows, key)
    ensures Summarizes(x, rows, key, NOTHING)
  {
    CollectNothing(rows, key, Depths);
    CollectNothing(rows, key, AwsMarks);
    CollectNothing(rows, key, SnapshotMarks);
    CollectNothing(rows, key, SkipMarks);
    CollectNothing(rows, key, XfailMarks);
    CollectNothing(rows, key, x.Classes);
    CollectNothing(rows, key, Origins);
    CollectNothing(rows, key, Outcomes);
    CollectNothing(rows, key, x.Samples);
  }

  lemma MentionsAppend(rows: seq<Row>, row: Row, key: Key)
    ensures Mentions(rows + [row], key) <==> Mentions(rows, key) || KeyOf(row) == key
  {
    var all := rows + [row];
    assert all[|rows|] == row;
    if Mentions(rows, key) {
      var i :| 0 <= i < |rows| && rows[i].service == key.0 && rows[i].operation == key.1;
      assert all[i] == rows[i];
    }
  }

  /** The payload stays right when one operation, seen before or not, takes in one row. */
  lemma PayloadStep(x: Setting, rows: seq<Row>, row: Row, p: map<Key, Semantics>, s: Semantics)
    requires IsPayload(x, rows, p)
    requires RowStep(x, row, At(p, KeyOf(row)), s)
    ensures IsPayload(x, rows + [row], p[KeyOf(row) := s])
  {
    var p' := p[KeyOf(row) := s];
    forall key ensures key in p' <==> Mentions(rows + [row], key) {
      MentionsAppend(rows, row, key);
    }
    forall key | key in p' ensures Summarizes(x, rows + [row], key, p'[key]) {
      SummaryStep(x, rows, row, p, s, key);
    }
  }

  lemma SummaryStep(x: Setting, rows: seq<Row>, row: Row, p: map<Key, Semantics>, s: Semantics, key: Key)
    requires IsPayload(x, rows, p) && (key in p || key == KeyOf(row))
    requires RowStep(x, row, At(p, KeyOf(row)), s)
    ensures Summarizes(x, rows + [row], key, p[KeyOf(row) := s][key])
  {
    if key == KeyOf(row) {
      if key !in p { NothingSummarizes(x, rows, key); }
      RowSummarized(x, rows, row, At(p, key), s);
    } else {
      OtherRowSummarized(x, rows, row, key, p[key]);
    }
  }

  /** The rows that passed validation. */
  function ValidRows(records: seq<Parsed>): seq<Row> {
    if records == [] then []
    else
      var last := records[|records| - 1];
      ValidRows(records[..|records| - 1]) + if last.Valid? then [last.row] else []
  }

  lemma PayloadOfNext(x: Setting, records: seq<Parsed>, record: Parsed, p: map<Key, Semantics>, p': map<Key, Semantics>)
    requires IsPayload(x, ValidRows(records), p)
    requires record.Invalid? ==> p' == p
    requires record.Valid? ==> Taken(x, record.row, p, p')
    ensures IsPayload(x, ValidRows(records + [record]), p')
  {
    assert (records + [record])[..|records|] == records;
    if record.Valid? {
      assert ValidRows(records + [record]) == ValidRows(records) + [record.row];
      PayloadStep(x, ValidRows(records), record.row, p, p'[KeyOf(record.row)]);
    } else {
      assert ValidRows(records + [record]) == ValidRows(records);
    }
  }

  /** One operation took in the row, and no other changed. */
  ghost predicate Taken(x: Setting, row: Row, p: map<Key, Semantics>, p': map<Key, Semantics>) {
    && KeyOf(row) in p' && p' == p[KeyOf(row) := p'[KeyOf(row)]]
    && RowStep(x, row, At(p, KeyOf(row)), p'[KeyOf(row)])
  }

  lemma UpdatedTwice<K, V>(p: map<K, V>, key: K, a: V, b: V)
    ensures p[key := a][key := b] == p[key := b]
  {
  }

  /** The dictionary of operation states. `states` holds its values, and `payload` what they show. */
  class Operations {
    var entries: map<Key, OperationState>
    ghost var states: set<OperationState>
    ghost var payload: map<Key, Semantics>

    ghost predicate Sound()
      reads this, states
    {
      && entries.Keys == payload.Keys
      && forall key :: key in entries ==>
          entries[key] in states && entries[key].key == key && entries[key].View() == payload[key]
    }

    constructor ()
      ensures Sound() && states == {} && payload == map[]
    {
      entries, states, payload := map[], {}, map[];
    }

    method SetDefault(key: Key) returns (state: OperationState)
      requires Sound()
      modifies this
      ensures Sound() && fresh(states - old(states)) && key in entries && entries[key] == state
      ensures payload == old(payload)[key := At(old(payload), key)]
    {
      if key in entries {
        state := entries[key];
      } else {
        state := new OperationState(key);
        entries, states, payload := entries[key := state], states + {state}, payload[key := NOTHING];
      }
    }

    method ObserveEntry(x: Setting, row: Row, state: OperationState)
      requires Sound() && KeyOf(row) in entries && entries[KeyOf(row)] == state
      modifies this`payload, state
      ensures Sound()
      ensures payload.Keys == old(payload).Keys && payload == old(payload)[KeyOf(row) := payload[KeyOf(row)]]
      ensures RowStep(x, row, old(payload)[KeyOf(row)], payload[KeyOf(row)])
    {
      state.Observe(x, row);
      payload := payload[KeyOf(row) := state.View()];
    }

    /** `operations.setdefault` followed by the updates of the state it returns. */
    method Take(x: Setting, row: Row)
      requires Sound()
      modifies this, states
      ensures Sound() && fresh(states - old(states))
      ensures Taken(x, row, old(payload), payload)
    {
      ghost var was := payload;
      var state := SetDefault(KeyOf(row));
      ObserveEntry(x, row, state);
      UpdatedTwice(was, KeyOf(row), At(was, KeyOf(row)), payload[KeyOf(row)]);
    }

    /** One turn of the loop: an invalid record ends it unless invalid records are allowed. */
    method Process(x: Setting, record: Parsed, allowInvalid: bool, ghost records: seq<Parsed>) returns (refused: bool)
      requires Sound() && IsPayload(x, ValidRows(records), payload)
      modifies this, states
      ensures refused <==> record.Invalid? && !allowInvalid
      ensures Sound() && fresh(states - old(states))
      ensures IsPayload(x, ValidRows(records + [record]), payload)
    {
      refused := record.Invalid? && !allowInvalid;
      if record.Valid? { Take(x, record.row); }
      PayloadOfNext(x, records, record, old(payload), payload);
    }

    /** The loop, up to the end or to the record that ends it. */
    method ProcessAll(x: Setting, records: seq<Parsed>, allowInvalid: bool) returns (i: nat, refused: bool)
      requires Sound() && payload == map[]
      modifies this, states
      ensures Sound()
      ensures refused ==> !allowInvalid && i < |records| && records[i].Invalid? && AllValid(records[..i])
      ensures !refused ==> (allowInvalid || AllValid(records)) && IsPayload(x, ValidRows(records), payload)
    {
      i, refused := 0, false;
      ghost var done: seq<Parsed> := [];
      while i < |records|
        invariant 0 <= i <= |records| && done == records[..i] && (allowInvalid || AllValid(done))
        invariant fresh(states - old(states)) && Sound()
        invariant IsPayload(x, ValidRows(done), payload)
      {
        refused := Process(x, records[i], allowInvalid, done);
        if refused { return; }
        done, i := done + [records[i]], i + 1;
      }
      assert done == records;
    }

    method Payload() returns (r: map<Key, Semantics>)
      requires Sound()
      ensures r == payload
    {
      r := map key | key in entries :: entries[key].View();
    }
  }

  datatype Result = Imported(payload: map<Key, Semantics>) | Refused(message: string)

  predicate AllValid(records: seq<Parsed>) {
    forall i :: 0 <= i < |records| ==> records[i].Valid?
  }

  /** The row loop, over every record of every input. It is refused at the first invalid record unless invalid ones are
      allowed; otherwise the semantic payload is that of the valid rows. */
  method ImportRows(x: Setting, records: seq<Parsed>, allowInvalid: bool) returns (r: Result)
    ensures r.Refused? <==> !allowInvalid && !AllValid(records)
    ensures r.Refused? ==> exists i :: 0 <= i < |records| && records[i] == Invalid(r.message) && AllValid(records[..i])
    ensures r.Imported? ==> IsPayload(x, ValidRows(records), r.payload)
  {
    var operations := new Operations();
    var i, refused := operations.ProcessAll(x, records, allowInvalid);
    if refused {
      r := Refused(records[i].message);
    } else {
      var payload := operations.Payload();
      r := Imported(payload);
    }
  }

  lemma {:induction false} ValidRowsMember(records: seq<Parsed>, row: Row)
    ensures row in ValidRows(records) <==> Valid(row) in records
  {
    if records != [] {
      var front, last := records[..|records| - 1], records[|records| - 1];
      ValidRowsMember(front, row);
      assert records == front + [last];
    }
  }

  /** Two imports whose records differ in order or repetition only end with the same semantic payload. */
  lemma ImportIgnoresOrderAndRepetition(x: Setting, records: seq<Parsed>, records': seq<Parsed>, p: map<Key, Semantics>,
                                        p': map<Key, Semantics>)
    requires forall record :: record in records <==> record in records'
    requires IsPayload(x, ValidRows(records), p) && IsPayload(x, ValidRows(records'), p')
    ensures p == p'
  {
    assert SameRows(ValidRows(records), ValidRows(records')) by {
      forall row ensures row in ValidRows(records) <==> row in ValidRows(records') {
        ValidRowsMember(records, row);
        ValidRowsMember(records', row);
      }
    }
    PayloadIgnoresOrderAndRepetition(x, ValidRows(records), ValidRows(records'), p, p');
  }
}
