/** The closing snapshot (internal/service/snapshot/snapshot.go): today's candidates, their
    limit-up flags, and the strong-day count carried over from the previous trading day.

    Quotes, the limit list and the chosen topics are inputs; the rendering of days as text
    is a parameter. TakeSnapshot is proved equal to Snapshotted on the table. */
module Snapshot {
  import opened Wrappers
  import opened Batches
  import opened DateText
  import opened Calendar
  import opened Limiter
  import opened SnapshotRepo

  datatype DailyQuote = DailyQuote(tsCode: string, preClose: int, price: int, pctChg: int)

  /** What one day's run is given besides the stored snapshots. */
  datatype Inputs = Inputs(quotes: seq<DailyQuote>, limitTimes: map<string, int>, topics: map<string, int>)

  /** The trading calendar and the YYYY-MM-DD rendering of days. */
  datatype Clock = Clock(holidays: set<int>, render: int -> string)

  function Int16(n: int): int {
    (n + 0x8000) % 0x1_0000 - 0x8000
  }

  function Candidates(quotes: seq<DailyQuote>): seq<string> {
    if quotes == [] then []
    else
      var q := quotes[|quotes| - 1];
      Candidates(quotes[..|quotes| - 1]) + if q.pctChg >= 500 then [q.tsCode] else []
  }

  /** The last candidate quote of each code. */
  function QuoteMap(quotes: seq<DailyQuote>): map<string, DailyQuote> {
    if quotes == [] then map[]
    else
      var q := quotes[|quotes| - 1];
      var earlier := QuoteMap(quotes[..|quotes| - 1]);
      if q.pctChg >= 500 then earlier[q.tsCode := q] else earlier
  }

  lemma {:induction false} CandidateQuotes(quotes: seq<DailyQuote>)
    ensures forall code :: code in Candidates(quotes) <==> code in QuoteMap(quotes)
    ensures forall code :: code in QuoteMap(quotes) ==>
              QuoteMap(quotes)[code] in quotes && QuoteMap(quotes)[code].tsCode == code && QuoteMap(quotes)[code].pctChg >= 500
    ensures forall q :: q in quotes && q.pctChg >= 500 ==> q.tsCode in QuoteMap(quotes)
  {
    if quotes != [] {
      CandidateQuotes(quotes[..|quotes| - 1]);
    }
  }

  /** The board is read off the first six characters of each candidate. */
  predicate CodesHaveSymbol(quotes: seq<DailyQuote>) {
    forall q :: q in quotes && q.pctChg >= 500 ==> |q.tsCode| >= 6
  }

  /** On the limit list, or at its limit price; whether it is an ST stock is not asked here. */
  function IsLimitUpRow(q: DailyQuote, input: Inputs): bool {
    q.tsCode in input.limitTimes
    || DetectLimitUp(DetectInput(q.price, q.preClose, q.pctChg, false, "", Idle),
                     LimitUpRatio(DetectBoard(if |q.tsCode| >= 6 then q.tsCode[..6] else q.tsCode))).isLimitUp
  }

  function DaysFrom(yesterday: Rows, code: string): int {
    if code in yesterday then Int16(yesterday[code].consecutiveStrongDays + 1) else 1
  }

  function NewRow(q: DailyQuote, input: Inputs, yesterday: Rows): Row {
    Row(q.pctChg,
        IsLimitUpRow(q, input),
        if q.tsCode in input.limitTimes then Int16(input.limitTimes[q.tsCode]) else 0,
        DaysFrom(yesterday, q.tsCode),
        if q.tsCode in input.topics then Some(input.topics[q.tsCode]) else None)
  }

  function Records(codes: seq<string>, date: string, input: Inputs, yesterday: Rows): seq<Record>
    requires forall code :: code in codes ==> code in QuoteMap(input.quotes)
  {
    seq(|codes|, i requires 0 <= i < |codes| =>
      Record(date, codes[i], NewRow(QuoteMap(input.quotes)[codes[i]], input, yesterday)))
  }

  function RecordsOf(date: string, input: Inputs, yesterday: Rows): seq<Record> {
    CandidateQuotes(input.quotes);
    Records(Candidates(input.quotes), date, input, yesterday)
  }

  /** The table after a day's run. A refused insert comes after the delete. */
  ghost function Snapshotted(table: Table, day: int, input: Inputs, clock: Clock): Table {
    var date := clock.render(day);
    var yesterday := RowsOn(table, clock.render(PreviousDay(day, clock.holidays)));
    var records := RecordsOf(date, input, yesterday);
    if Candidates(input.quotes) == [] then table
    else if NoRepeatInBatch(RecordKeys(records)) then UpsertAll(table - {date}, records)
    else table - {date}
  }

  /** From one day to another, days render as well-formed dates, no two alike. */
  ghost predicate RendersDates(clock: Clock, first: int, last: int) {
    && (forall day :: first <= day <= last ==> ValidDate(clock.render(day)))
    && (forall a, b :: first <= a < b <= last ==> clock.render(a) != clock.render(b))
  }

  method TakeSnapshot(repo: SnapshotRepository, day: int, input: Inputs, clock: Clock) returns (ok: bool)
    requires repo.Valid() && CodesHaveSymbol(input.quotes)
    requires RendersDates(clock, PreviousDay(day, clock.holidays), day)
    modifies repo
    ensures repo.Valid()
    ensures repo.table == Snapshotted(old(repo.table), day, input, clock)
    ensures ok <==> Candidates(input.quotes) == [] || Accepted(input)
  {
    var candidateCodes, quoteMap := PickCandidates(input.quotes);
    if |candidateCodes| == 0 { return true; }

    var yesterday := PreviousTradingDay(day, clock.holidays);
    var found := repo.GetByDate(clock.render(yesterday));
    var yesterdayMap := if found.Some? then found.value else map[];

    CandidateQuotes(input.quotes);
    var date := clock.render(day);
    var records := BuildRecords(candidateCodes, date, input, yesterdayMap, quoteMap);
    AcceptedIff(date, input, yesterdayMap);
    var _ := repo.DeleteByDate(date);
    ok := repo.InsertBatch(records);
  }

  method PickCandidates(quotes: seq<DailyQuote>) returns (codes: seq<string>, quoteMap: map<string, DailyQuote>)
    ensures codes == Candidates(quotes) && quoteMap == QuoteMap(quotes)
  {
    codes, quoteMap := [], map[];
    for i := 0 to |quotes|
      invariant codes == Candidates(quotes[..i]) && quoteMap == QuoteMap(quotes[..i])
    {
      var q := quotes[i];
      assert quotes[..i + 1][..i] == quotes[..i];
      if q.pctChg >= 500 {
        codes := codes + [q.tsCode];
        quoteMap := quoteMap[q.tsCode := q];
      }
    }
    assert quotes[..|quotes|] == quotes;
  }

  method BuildRecords(codes: seq<string>, date: string, input: Inputs, yesterday: Rows, quoteMap: map<string, DailyQuote>)
    returns (records: seq<Record>)
    requires quoteMap == QuoteMap(input.quotes) && CodesHaveSymbol(input.quotes)
    requires forall code :: code in codes ==> code in quoteMap
    ensures records == Records(codes, date, input, yesterday)
    ensures forall r :: r in records ==> r.date == date
  {
    records := [];
    for i := 0 to |codes|
      invariant |records| == i
      invariant forall j :: 0 <= j < i ==> records[j] == Records(codes, date, input, yesterday)[j]
    {
      var tsCode := codes[i];
      CandidateQuotes(input.quotes);
      var quote := quoteMap[tsCode];
      var isLimitUp, limitTimes := false, 0;
      if tsCode in input.limitTimes {
        isLimitUp := true;
        limitTimes := Int16(input.limitTimes[tsCode]);
      } else {
        var board := DetectBoard(tsCode[..6]);
        var output := DetectLimitUp(DetectInput(quote.price, quote.preClose, quote.pctChg, false, "", Idle),
                                    LimitUpRatio(board));
        isLimitUp := output.isLimitUp;
      }
      var consecutiveDays := 1;
      if tsCode in yesterday {
        consecutiveDays := Int16(yesterday[tsCode].consecutiveStrongDays + 1);
      }
      var topicID := if tsCode in input.topics then Some(input.topics[tsCode]) else None;
      records := records + [Record(date, tsCode, Row(quote.pctChg, isLimitUp, limitTimes, consecutiveDays, topicID))];
    }
  }

  // ----- one run

  predicate StrongOn(quotes: seq<DailyQuote>, code: string) {
    exists q :: q in quotes && q.tsCode == code && q.pctChg >= 500
  }

  /** The insert of a day's records goes through: no candidate code comes twice in one statement. */
  ghost predicate Accepted(input: Inputs) {
    NoRepeatInBatch(Candidates(input.quotes))
  }

  lemma {:induction false} UpsertElsewhere(table: Table, records: seq<Record>, date: string, d: string)
    requires forall r :: r in records ==> r.date == date
    requires d != date
    ensures RowsOn(UpsertAll(table, records), d) == RowsOn(table, d)
  {
    if records != [] {
      var prefix, last := records[..|records| - 1], records[|records| - 1];
      assert last in records && forall r :: r in prefix ==> r in records;
      UpsertElsewhere(table, prefix, date, d);
    }
  }

  /** Records of one date in which a code always has the same row. */
  ghost predicate Uniform(records: seq<Record>, date: string) {
    && (forall r :: r in records ==> r.date == date)
    && (forall r1, r2 :: r1 in records && r2 in records && r1.tsCode == r2.tsCode ==> r1 == r2)
  }

  /** The rows of a date that had none: one for each code of the records. */
  lemma {:induction false} UpsertRecords(table: Table, records: seq<Record>, date: string, code: string)
    requires Uniform(records, date) && date !in table
    ensures code in RowsOn(UpsertAll(table, records), date) <==> exists r :: r in records && r.tsCode == code
    ensures forall r :: r in records && r.tsCode == code ==>
              code in RowsOn(UpsertAll(table, records), date) && RowsOn(UpsertAll(table, records), date)[code] == r.row
  {
    if records != [] {
      var prefix, last := records[..|records| - 1], records[|records| - 1];
      assert forall r :: r in records <==> r in prefix || r == last;
      UpsertRecords(table, prefix, date, code);
    }
  }

  lemma RecordsAreUniform(date: string, input: Inputs, yesterday: Rows)
    ensures Uniform(RecordsOf(date, input, yesterday), date)
    ensures forall code :: (exists r :: r in RecordsOf(date, input, yesterday) && r.tsCode == code)
                           <==> code in QuoteMap(input.quotes)
    ensures forall r :: r in RecordsOf(date, input, yesterday) ==>
              r.tsCode in QuoteMap(input.quotes) && r.row == NewRow(QuoteMap(input.quotes)[r.tsCode], input, yesterday)
  {
    var codes, records := Candidates(input.quotes), RecordsOf(date, input, yesterday);
    CandidateQuotes(input.quotes);
    forall code | code in codes ensures exists r :: r in records && r.tsCode == code {
      var i :| 0 <= i < |codes| && codes[i] == code;
      assert records[i] in records && records[i].tsCode == code;
    }
  }

  /** The keys of the records repeat in a statement exactly when the candidate codes do. */
  lemma AcceptedIff(date: string, input: Inputs, yesterday: Rows)
    ensures NoRepeatInBatch(RecordKeys(RecordsOf(date, input, yesterday))) <==> Accepted(input)
  {
    CandidateQuotes(input.quotes);
    var codes, keys := Candidates(input.quotes), RecordKeys(RecordsOf(date, input, yesterday));
    assert |keys| == |codes| && forall i :: 0 <= i < |codes| ==> keys[i] == (date, codes[i]);
    if NoRepeatInBatch(keys) {
      forall i, j | 0 <= i < j < |codes| && i / BATCH_SIZE == j / BATCH_SIZE ensures codes[i] != codes[j] {
        assert keys[i] != keys[j];
      }
    }
  }

  lemma RecordsHold(table: Table, date: string, input: Inputs, yesterday: Rows, code: string)
    requires date !in table
    ensures var after := UpsertAll(table, RecordsOf(date, input, yesterday));
            && (forall d :: d != date ==> RowsOn(after, d) == RowsOn(table, d))
            && (code in RowsOn(after, date) <==> code in QuoteMap(input.quotes))
            && (code in QuoteMap(input.quotes) ==>
                  && code in RowsOn(after, date)
                  && RowsOn(after, date)[code] == NewRow(QuoteMap(input.quotes)[code], input, yesterday))
  {
    var records := RecordsOf(date, input, yesterday);
    RecordsAreUniform(date, input, yesterday);
    forall d | d != date ensures RowsOn(UpsertAll(table, records), d) == RowsOn(table, d) {
      UpsertElsewhere(table, records, date, d);
    }
    UpsertRecords(table, records, date, code);
  }

  lemma StrongIsMapped(quotes: seq<DailyQuote>, code: string)
    ensures code in QuoteMap(quotes) <==> StrongOn(quotes, code)
  {
    CandidateQuotes(quotes);
  }

  /** A run with candidates whose insert is accepted leaves on its date exactly the strong
      stocks, each with the row of its last strong quote and of yesterday's row; no other date is
      touched. */
  lemma SnapshotRows(table: Table, day: int, input: Inputs, clock: Clock, code: string)
    requires Candidates(input.quotes) != [] && Accepted(input)
    ensures var date, yesterday := clock.render(day), RowsOn(table, clock.render(PreviousDay(day, clock.holidays)));
            var after := Snapshotted(table, day, input, clock);
            && (forall d :: d != date ==> RowsOn(after, d) == RowsOn(table, d))
            && (code in RowsOn(after, date) <==> StrongOn(input.quotes, code))
            && (code in QuoteMap(input.quotes) <==> StrongOn(input.quotes, code))
            && (code in RowsOn(after, date) ==>
                  RowsOn(after, date)[code] == NewRow(QuoteMap(input.quotes)[code], input, yesterday))
  {
    var date, yesterday := clock.render(day), RowsOn(table, clock.render(PreviousDay(day, clock.holidays)));
    AcceptedIff(date, input, yesterday);
    RecordsHold(table - {date}, date, input, yesterday, code);
    assert forall d :: d != date ==> RowsOn(table - {date}, d) == RowsOn(table, d);
    StrongIsMapped(input.quotes, code);
  }

  /** A run with candidates whose insert is refused has deleted the date before, and leaves it empty. */
  lemma RefusedInsertLosesTheDate(table: Table, day: int, input: Inputs, clock: Clock)
    requires Candidates(input.quotes) != [] && !Accepted(input)
    ensures Snapshotted(table, day, input, clock) == table - {clock.render(day)}
    ensures exists code :: StrongOn(input.quotes, code) && code !in RowsOn(Snapshotted(table, day, input, clock), clock.render(day))
  {
    var date, yesterday := clock.render(day), RowsOn(table, clock.render(PreviousDay(day, clock.holidays)));
    AcceptedIff(date, input, yesterday);
    CandidateQuotes(input.quotes);
    var code := Candidates(input.quotes)[0];
    assert code in Candidates(input.quotes);
    StrongIsMapped(input.quotes, code);
  }

  /** It happens whenever the day's quotes are one strong quote listed twice. */
  lemma RepeatedQuoteLosesTheDate(table: Table, day: int, q: DailyQuote, limitTimes: map<string, int>,
                                  topics: map<string, int>, clock: Clock)
    requires q.pctChg >= 500
    ensures Snapshotted(table, day, Inputs([q, q], limitTimes, topics), clock) == table - {clock.render(day)}
  {
    var one, quotes := [q], [q, q];
    assert one[..0] == [] && quotes[..1] == one;
    assert Candidates(one) == Candidates([]) + [q.tsCode];
    assert Candidates(quotes) == Candidates(one) + [q.tsCode];
    var codes := Candidates(quotes);
    assert codes[0] == codes[1] && 0 / BATCH_SIZE == 1 / BATCH_SIZE;
    RefusedInsertLosesTheDate(table, day, Inputs(quotes, limitTimes, topics), clock);
  }

  /** A run replaces the date's rows by today's strong stocks exactly when, with candidates, the
      insert is accepted, or, without any, there was nothing to replace. */
  lemma ReplacesIff(table: Table, day: int, input: Inputs, clock: Clock)
    ensures (forall code :: code in RowsOn(Snapshotted(table, day, input, clock), clock.render(day)) <==> StrongOn(input.quotes, code))
            <==> if Candidates(input.quotes) == [] then RowsOn(table, clock.render(day)) == map[] else Accepted(input)
  {
    CandidateQuotes(input.quotes);
    if Candidates(input.quotes) == [] {
      forall code ensures !StrongOn(input.quotes, code) { StrongIsMapped(input.quotes, code); }
      var rows := RowsOn(table, clock.render(day));
      if rows != map[] {
        var code := SomeKey(rows);
        assert code in RowsOn(Snapshotted(table, day, input, clock), clock.render(day)) && !StrongOn(input.quotes, code);
      }
    } else if Accepted(input) {
      forall code ensures code in RowsOn(Snapshotted(table, day, input, clock), clock.render(day)) <==> StrongOn(input.quotes, code) {
        SnapshotRows(table, day, input, clock, code);
      }
    } else {
      RefusedInsertLosesTheDate(table, day, input, clock);
    }
  }

  // ----- a whole history

  datatype DayRun = DayRun(day: int, input: Inputs)

  /** Consecutive trading days. */
  ghost predicate History(runs: seq<DayRun>, clock: Clock) {
    forall i :: 0 < i < |runs| ==> runs[i - 1].day == PreviousDay(runs[i].day, clock.holidays)
  }

  ghost predicate AllAccepted(runs: seq<DayRun>) {
    forall i :: 0 <= i < |runs| ==> Accepted(runs[i].input)
  }

  ghost function TableAfter(runs: seq<DayRun>, clock: Clock): Table {
    if runs == [] then map[]
    else
      var last := runs[|runs| - 1];
      Snapshotted(TableAfter(runs[..|runs| - 1], clock), last.day, last.input, clock)
  }

  /** Length of the run of strong days that ends with the last day. */
  function RunLength(runs: seq<DayRun>, code: string): nat {
    if runs == [] || !StrongOn(runs[|runs| - 1].input.quotes, code) then 0
    else 1 + RunLength(runs[..|runs| - 1], code)
  }

  /** The run really is the longest: strong on each of its days, and not on the day before it. */
  lemma {:induction false} RunLengthIsLongest(runs: seq<DayRun>, code: string)
    ensures var n := RunLength(runs, code);
            && n <= |runs|
            && (forall i :: |runs| - n <= i < |runs| ==> StrongOn(runs[i].input.quotes, code))
            && (n < |runs| ==> !StrongOn(runs[|runs| - n - 1].input.quotes, code))
  {
    if runs != [] && StrongOn(runs[|runs| - 1].input.quotes, code) {
      RunLengthIsLongest(runs[..|runs| - 1], code);
      assert forall i :: 0 <= i < |runs| - 1 ==> runs[..|runs| - 1][i] == runs[i];
    }
  }

  /** The runs fall into a span of days that render as distinct dates, the day before included. */
  ghost predicate Within(runs: seq<DayRun>, clock: Clock, first: int, last: int) {
    && RendersDates(clock, first, last)
    && forall i :: 0 <= i < |runs| ==> first <= PreviousDay(runs[i].day, clock.holidays) && runs[i].day <= last
  }

  ghost predicate NoRowsAfter(table: Table, day: int, clock: Clock, last: int) {
    forall d :: day < d <= last ==> RowsOn(table, clock.render(d)) == map[]
  }

  /** A day's run leaves the rows of every other date alone. */
  lemma OtherDatesStay(table: Table, run: DayRun, clock: Clock, date: string)
    requires date != clock.render(run.day)
    ensures RowsOn(Snapshotted(table, run.day, run.input, clock), date) == RowsOn(table, date)
  {
    var on, yesterday := clock.render(run.day), RowsOn(table, clock.render(PreviousDay(run.day, clock.holidays)));
    RecordsAreUniform(on, run.input, yesterday);
    UpsertElsewhere(table - {on}, RecordsOf(on, run.input, yesterday), on, date);
  }

  lemma {:induction false} NoRowsAhead(runs: seq<DayRun>, clock: Clock, first: int, last: int)
    requires History(runs, clock) && Within(runs, clock, first, last)
    ensures runs != [] ==> NoRowsAfter(TableAfter(runs, clock), runs[|runs| - 1].day, clock, last)
  {
    if runs != [] {
      var n := |runs| - 1;
      var run, before := runs[n], TableAfter(runs[..n], clock);
      assert forall i :: 0 <= i < n ==> runs[..n][i] == runs[i];
      NoRowsAhead(runs[..n], clock, first, last);
      assert n > 0 ==> runs[n - 1].day == PreviousDay(run.day, clock.holidays) < run.day;
      forall d | run.day < d <= last ensures RowsOn(TableAfter(runs, clock), clock.render(d)) == map[] {
        assert first <= PreviousDay(run.day, clock.holidays) < run.day;
        OtherDatesStay(before, run, clock, clock.render(d));
      }
    }
  }

  /** The stock has a row exactly when the run is not empty, and the row holds its length,
      wrapped to 16 bits. */
  ghost predicate HoldsRun(rows: Rows, code: string, n: nat) {
    && (code in rows <==> n > 0)
    && (code in rows ==> rows[code].consecutiveStrongDays == Int16(n))
  }

  lemma ShortRunsDoNotWrap(rows: Rows, code: string, n: nat)
    requires HoldsRun(rows, code, n) && code in rows && n <= 0x7fff
    ensures rows[code].consecutiveStrongDays == n
  {
  }

  /** The rows of a day that had none before. */
  lemma StoredDays(table: Table, day: int, input: Inputs, clock: Clock, code: string)
    requires Accepted(input) && RowsOn(table, clock.render(day)) == map[]
    ensures var rows := RowsOn(Snapshotted(table, day, input, clock), clock.render(day));
            && (code in rows <==> StrongOn(input.quotes, code))
            && (code in rows ==> rows[code].consecutiveStrongDays
                                 == DaysFrom(RowsOn(table, clock.render(PreviousDay(day, clock.holidays))), code))
  {
    if Candidates(input.quotes) != [] {
      SnapshotRows(table, day, input, clock, code);
      if StrongOn(input.quotes, code) {
        CandidateQuotes(input.quotes);
      }
    } else {
      CandidateQuotes(input.quotes);
      StrongIsMapped(input.quotes, code);
    }
  }

  /** From the run up to yesterday to the run up to today. */
  lemma RunExtends(yesterday: Rows, today: Rows, code: string, n: nat, strong: bool)
    requires HoldsRun(yesterday, code, n) && (code in today <==> strong)
    requires code in today ==> today[code].consecutiveStrongDays == DaysFrom(yesterday, code)
    ensures HoldsRun(today, code, if strong then n + 1 else 0)
  {
  }

  /** One more day, on a date that had no rows. */
  lemma DayExtendsRun(before: Table, run: DayRun, clock: Clock, code: string, n: nat)
    requires Accepted(run.input) && RowsOn(before, clock.render(run.day)) == map[]
    requires HoldsRun(RowsOn(before, clock.render(PreviousDay(run.day, clock.holidays))), code, n)
    ensures HoldsRun(RowsOn(Snapshotted(before, run.day, run.input, clock), clock.render(run.day)), code,
                     if StrongOn(run.input.quotes, code) then n + 1 else 0)
  {
    StoredDays(before, run.day, run.input, clock, code);
    RunExtends(RowsOn(before, clock.render(PreviousDay(run.day, clock.holidays))),
               RowsOn(Snapshotted(before, run.day, run.input, clock), clock.render(run.day)),
               code, n, StrongOn(run.input.quotes, code));
  }

  lemma RunLengthNext(runs: seq<DayRun>, code: string)
    requires runs != []
    ensures RunLength(runs, code)
            == if StrongOn(runs[|runs| - 1].input.quotes, code) then RunLength(runs[..|runs| - 1], code) + 1 else 0
  {
  }

  lemma PrefixIsHistory(runs: seq<DayRun>, clock: Clock, first: int, last: int, n: nat)
    requires History(runs, clock) && Within(runs, clock, first, last) && n <= |runs|
    ensures History(runs[..n], clock) && Within(runs[..n], clock, first, last)
  {
    assert forall j :: 0 <= j < n ==> runs[..n][j] == runs[j];
  }

  /** Before the last day's run its date has no rows. */
  lemma DateIsFree(runs: seq<DayRun>, clock: Clock, first: int, last: int)
    requires History(runs, clock) && Within(runs, clock, first, last) && runs != []
    ensures RowsOn(TableAfter(runs[..|runs| - 1], clock), clock.render(runs[|runs| - 1].day)) == map[]
  {
    var n := |runs| - 1;
    PrefixIsHistory(runs, clock, first, last, n);
    NoRowsAhead(runs[..n], clock, first, last);
    if n > 0 {
      assert runs[n - 1].day == PreviousDay(runs[n].day, clock.holidays) < runs[n].day;
    }
  }

  lemma TableAfterNext(runs: seq<DayRun>, clock: Clock)
    requires runs != []
    ensures var run := runs[|runs| - 1];
            TableAfter(runs, clock) == Snapshotted(TableAfter(runs[..|runs| - 1], clock), run.day, run.input, clock)
  {
  }

  /** The run that ends on the day before the last, as the table holds it then. */
  ghost predicate HoldsBefore(runs: seq<DayRun>, clock: Clock, code: string)
    requires runs != []
  {
    HoldsRun(RowsOn(TableAfter(runs[..|runs| - 1], clock), clock.render(PreviousDay(runs[|runs| - 1].day, clock.holidays))),
             code, RunLength(runs[..|runs| - 1], code))
  }

  lemma HoldsLast(runs: seq<DayRun>, clock: Clock, first: int, last: int, code: string)
    requires History(runs, clock) && Within(runs, clock, first, last) && runs != []
    requires Accepted(runs[|runs| - 1].input) && HoldsBefore(runs, clock, code)
    ensures HoldsRun(RowsOn(TableAfter(runs, clock), clock.render(runs[|runs| - 1].day)), code, RunLength(runs, code))
  {
    var n := |runs| - 1;
    DateIsFree(runs, clock, first, last);
    DayExtendsRun(TableAfter(runs[..n], clock), runs[n], clock, code, RunLength(runs[..n], code));
    TableAfterNext(runs, clock);
    RunLengthNext(runs, code);
  }

  lemma {:induction false} StoredRun(runs: seq<DayRun>, clock: Clock, first: int, last: int, code: string)
    requires History(runs, clock) && Within(runs, clock, first, last) && runs != [] && AllAccepted(runs)
    ensures HoldsRun(RowsOn(TableAfter(runs, clock), clock.render(runs[|runs| - 1].day)), code, RunLength(runs, code))
  {
    var n := |runs| - 1;
    assert HoldsBefore(runs, clock, code) by {
      if n > 0 {
        PrefixIsHistory(runs, clock, first, last, n);
        assert forall i :: 0 <= i < n ==> runs[..n][i] == runs[i];
        StoredRun(runs[..n], clock, first, last, code);
        assert runs[n - 1].day == PreviousDay(runs[n].day, clock.holidays);
      }
    }
    HoldsLast(runs, clock, first, last, code);
  }

  lemma {:induction false} DaysAscend(runs: seq<DayRun>, clock: Clock, i: nat)
    requires History(runs, clock) && i < |runs| - 1
    ensures runs[i].day < runs[|runs| - 1].day
  {
    var n := |runs| - 1;
    assert runs[n - 1].day == PreviousDay(runs[n].day, clock.holidays);
    if i < n - 1 {
      assert forall j :: 0 <= j < n ==> runs[..n][j] == runs[j];
      DaysAscend(runs[..n], clock, i);
    }
  }

  /** No run after the i-th is on a date. */
  ghost predicate NotAgain(runs: seq<DayRun>, clock: Clock, i: nat, date: string) {
    forall j :: i < j < |runs| ==> clock.render(runs[j].day) != date
  }

  lemma {:induction false} RowsStay(runs: seq<DayRun>, clock: Clock, i: nat, date: string)
    requires i < |runs| && NotAgain(runs, clock, i, date)
    ensures RowsOn(TableAfter(runs, clock), date) == RowsOn(TableAfter(runs[..i + 1], clock), date)
  {
    var n := |runs| - 1;
    if i == n {
      assert runs[..i + 1] == runs;
    } else {
      assert runs[..n][..i + 1] == runs[..i + 1];
      RowsStay(runs[..n], clock, i, date);
      OtherDatesStay(TableAfter(runs[..n], clock), runs[n], clock, date);
    }
  }

  lemma HistoryIsOnOtherDates(runs: seq<DayRun>, clock: Clock, first: int, last: int, i: nat)
    requires History(runs, clock) && Within(runs, clock, first, last) && i < |runs|
    ensures NotAgain(runs, clock, i, clock.render(runs[i].day))
  {
    forall j | i < j < |runs| ensures clock.render(runs[j].day) != clock.render(runs[i].day) {
      PrefixIsHistory(runs, clock, first, last, j + 1);
      DaysAscend(runs[..j + 1], clock, i);
      assert first <= PreviousDay(runs[i].day, clock.holidays) < runs[i].day;
    }
  }

  lemma StoredRunAt(runs: seq<DayRun>, clock: Clock, first: int, last: int, code: string, i: nat)
    requires History(runs, clock) && Within(runs, clock, first, last) && AllAccepted(runs) && i < |runs|
    ensures HoldsRun(RowsOn(TableAfter(runs[..i + 1], clock), clock.render(runs[i].day)), code, RunLength(runs[..i + 1], code))
  {
    var upTo := runs[..i + 1];
    PrefixIsHistory(runs, clock, first, last, i + 1);
    assert forall j :: 0 <= j <= i ==> upTo[j] == runs[j];
    StoredRun(upTo, clock, first, last, code);
  }

  /** If the snapshot is taken on every trading day in order, from an empty table, and every
      insert is accepted, then on every one of these days the table holds the length of the
      longest run of trading days ending that day on which the stock rose at least 5%. */
  lemma StoredDaysAreRunLength(runs: seq<DayRun>, clock: Clock, first: int, last: int, code: string, i: nat)
    requires History(runs, clock) && Within(runs, clock, first, last) && AllAccepted(runs) && i < |runs|
    ensures HoldsRun(RowsOn(TableAfter(runs, clock), clock.render(runs[i].day)), code, RunLength(runs[..i + 1], code))
  {
    HistoryIsOnOtherDates(runs, clock, first, last, i);
    RowsStay(runs, clock, i, clock.render(runs[i].day));
    StoredRunAt(runs, clock, first, last, code, i);
  }

  /** The final table holds the run of a code that ends on the i-th day. */
  ghost predicate HoldsRunOf(runs: seq<DayRun>, clock: Clock, i: nat, code: string)
    requires i < |runs|
  {
    HoldsRun(RowsOn(TableAfter(runs, clock), clock.render(runs[i].day)), code, RunLength(runs[..i + 1], code))
  }

  ghost predicate HoldsEveryRun(runs: seq<DayRun>, clock: Clock) {
    forall i, code :: 0 <= i < |runs| ==> HoldsRunOf(runs, clock, i, code)
  }

  /** A day whose insert is refused stays empty, although some stock was strong on it. */
  lemma RefusedDayIsEmpty(runs: seq<DayRun>, clock: Clock, first: int, last: int, i: nat)
    requires History(runs, clock) && Within(runs, clock, first, last) && i < |runs| && !Accepted(runs[i].input)
    ensures !HoldsEveryRun(runs, clock)
  {
    var run, date := runs[i], clock.render(runs[i].day);
    HistoryIsOnOtherDates(runs, clock, first, last, i);
    RowsStay(runs, clock, i, date);
    assert runs[..i + 1][..i] == runs[..i] && runs[..i + 1][i] == run;
    assert TableAfter(runs[..i + 1], clock) == Snapshotted(TableAfter(runs[..i], clock), run.day, run.input, clock);
    RefusedInsertLosesTheDate(TableAfter(runs[..i], clock), run.day, run.input, clock);
    assert RowsOn(TableAfter(runs, clock), date) == map[];
    var code :| StrongOn(run.input.quotes, code);
    assert RunLength(runs[..i + 1], code) > 0;
    assert !HoldsRunOf(runs, clock, i, code);
  }

  /** Over any history, the table holds every run on every day if and only if every day's insert
      was accepted. */
  lemma StoredDaysIff(runs: seq<DayRun>, clock: Clock, first: int, last: int)
    requires History(runs, clock) && Within(runs, clock, first, last)
    ensures HoldsEveryRun(runs, clock) <==> AllAccepted(runs)
  {
    if AllAccepted(runs) {
      forall i, code | 0 <= i < |runs| ensures HoldsRunOf(runs, clock, i, code) {
        StoredDaysAreRunLength(runs, clock, first, last, code, i);
      }
    } else {
      var i :| 0 <= i < |runs| && !Accepted(runs[i].input);
      RefusedDayIsEmpty(runs, clock, first, last, i);
    }
  }

  /** Days on which no code is quoted twice are always accepted. */
  lemma {:induction false} UniqueCodesAccepted(quotes: seq<DailyQuote>)
    requires forall i, j :: 0 <= i < j < |quotes| ==> quotes[i].tsCode != quotes[j].tsCode
    ensures NoRepeats(Candidates(quotes)) && NoRepeatInBatch(Candidates(quotes))
  {
    if quotes != [] {
      var prefix, last := quotes[..|quotes| - 1], quotes[|quotes| - 1];
      assert forall i :: 0 <= i < |prefix| ==> prefix[i] == quotes[i];
      UniqueCodesAccepted(prefix);
      CandidateQuotes(prefix);
      assert last.tsCode !in Candidates(prefix);
    }
  }
}
