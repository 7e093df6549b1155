/** What a snapshot stores of a stock, column by column, and which rows later reads return. */
module SnapshotColumns {
  import opened Wrappers
  import opened Batches
  import opened DateText
  import opened Calendar
  import opened Limiter
  import opened Boards
  import opened SnapshotRepo
  import opened Snapshot

  // ----- the columns of a stored row

  /** The last quote of a code that rises at least 5%. */
  ghost predicate IsLastStrong(quotes: seq<DailyQuote>, i: nat) {
    && i < |quotes| && quotes[i].pctChg >= 500
    && forall j :: i < j < |quotes| && quotes[j].pctChg >= 500 ==> quotes[j].tsCode != quotes[i].tsCode
  }

  lemma {:induction false} LastStrongIsMapped(quotes: seq<DailyQuote>, i: nat)
    requires IsLastStrong(quotes, i)
    ensures quotes[i].tsCode in QuoteMap(quotes) && QuoteMap(quotes)[quotes[i].tsCode] == quotes[i]
  {
    var n := |quotes| - 1;
    if i < n {
      assert forall j :: 0 <= j < n ==> quotes[..n][j] == quotes[j];
      LastStrongIsMapped(quotes[..n], i);
    }
  }

  lemma LimitUpByListOrPrice(q: DailyQuote, input: Inputs)
    requires |q.tsCode| >= 6
    ensures IsLimitUpRow(q, input) <==>
              || q.tsCode in input.limitTimes
              || (q.preClose > 0
                  && 100 * (q.price + 1) > q.preClose * (if q.tsCode[..3] in {"300", "301", "688"} then 120
                                                         else if q.tsCode[0] in {'8', '4', '9'} then 130 else 110))
  {
    assert q.tsCode[..6][..3] == q.tsCode[..3];
    if q.preClose > 0 {
      LimitIsFloor(q.price, q.preClose, LimitUpRatio(DetectBoard(q.tsCode[..6])));
    }
  }

  /** After an accepted day, the row of a stock: its last strong quote, the limit list, the given
      topic and the previous trading day's row. */
  lemma StoredColumns(table: Table, day: int, input: Inputs, clock: Clock, i: nat)
    requires Accepted(input) && IsLastStrong(input.quotes, i) && |input.quotes[i].tsCode| >= 6
    ensures var q, rows := input.quotes[i], RowsOn(Snapshotted(table, day, input, clock), clock.render(day));
            var yesterday := RowsOn(table, clock.render(PreviousDay(day, clock.holidays)));
            && q.tsCode in rows
            && var row := rows[q.tsCode];
               && row.changePct == q.pctChg
               && (row.isLimitUp <==>
                     || q.tsCode in input.limitTimes
                     || (q.preClose > 0
                         && 100 * (q.price + 1) > q.preClose * (if q.tsCode[..3] in {"300", "301", "688"} then 120
                                                                else if q.tsCode[0] in {'8', '4', '9'} then 130 else 110)))
               && (q.tsCode !in input.limitTimes ==> row.limitTimes == 0)
               && (q.tsCode in input.limitTimes && -32768 <= input.limitTimes[q.tsCode] <= 32767 ==>
                     row.limitTimes == input.limitTimes[q.tsCode])
               && row.topicID == (if q.tsCode in input.topics then Some(input.topics[q.tsCode]) else None)
               && (q.tsCode !in yesterday ==> row.consecutiveStrongDays == 1)
               && (q.tsCode in yesterday && -32768 <= yesterday[q.tsCode].consecutiveStrongDays < 32767 ==>
                     row.consecutiveStrongDays == yesterday[q.tsCode].consecutiveStrongDays + 1)
  {
    var q := input.quotes[i];
    CandidateQuotes(input.quotes);
    LastStrongIsMapped(input.quotes, i);
    SnapshotRows(table, day, input, clock, q.tsCode);
    LimitUpByListOrPrice(q, input);
  }

  /** Sixteen bits: the remainder between -32768 and 32767. */
  lemma Int16Wraps(n: int)
    ensures -32768 <= Int16(n) <= 32767 && (Int16(n) - n) % 65536 == 0
  {
    var q := (n + 0x8000) / 0x1_0000;
    assert n + 0x8000 == 0x1_0000 * q + (n + 0x8000) % 0x1_0000;
    assert Int16(n) - n == 65536 * (-q);
  }

  // ----- what later reads return, operation by operation

  /** The row of a code that a read of a date returns. */
  function Cell(table: Table, date: string, code: string): Option<Row> {
    if date in table && code in table[date] then Some(table[date][code]) else None
  }

  /** A read of a date returns exactly the cells of the date; a limit-up read those of its
      limit-up rows. */
  lemma ReadsReturnCells(table: Table, date: string, code: string)
    ensures var cell, all, limitUps := Cell(table, date, code), RowsOn(table, date), LimitUpRows(RowsOn(table, date));
            && (code in all <==> cell.Some?)
            && (code in all ==> cell == Some(all[code]))
            && (code in limitUps <==> cell.Some? && cell.value.isLimitUp)
            && (code in limitUps ==> cell == Some(limitUps[code]))
  {
  }

  lemma DeleteEmptiesTheDate(st: State, day: string, date: string, code: string)
    requires ValidDate(day)
    ensures Cell(Apply(st, DeleteDate(day)).table, date, code) == if date == day then None else Cell(st.table, date, code)
  {
  }

  /** A cutoff delete empties the dates up to the cutoff, as texts compare, and no others. */
  lemma CutoffEmptiesUpTo(st: State, cutoff: string, date: string, code: string)
    requires ValidDate(cutoff) && ValidDate(date)
    ensures Cell(Apply(st, DeleteCutoff(cutoff)).table, date, code)
         == if AtMost(date, cutoff) then None else Cell(st.table, date, code)
  {
    TextOrderIsDateOrder(date, cutoff);
  }

  /** A topic update changes the topic of one existing row and nothing else. */
  lemma UpdateSetsTheTopic(st: State, on: string, tsCode: string, topicID: Option<int>, date: string, code: string)
    requires ValidDate(on)
    ensures var before, after := Cell(st.table, date, code),
                                 Cell(Apply(st, UpdateTopic(on, tsCode, topicID)).table, date, code);
            after == if date == on && code == tsCode && before.Some? then Some(before.value.(topicID := topicID)) else before
  {
  }

  lemma UpsertWritesOneCell(table: Table, r: Record, date: string, code: string)
    ensures var before, after := Cell(table, date, code), Cell(Upsert(table, r), date, code);
            after == if r.date != date || r.tsCode != code then before
                     else if before.Some? then Some(r.row.(topicID := before.value.topicID))
                     else Some(r.row)
  {
  }

  ghost predicate NoneFor(records: seq<Record>, date: string, code: string) {
    forall r :: r in records ==> r.date != date || r.tsCode != code
  }

  lemma {:induction false} InsertLeavesOthers(table: Table, records: seq<Record>, date: string, code: string)
    requires NoneFor(records, date, code)
    ensures Cell(UpsertAll(table, records), date, code) == Cell(table, date, code)
  {
    if records != [] {
      var prefix, last := records[..|records| - 1], records[|records| - 1];
      assert forall r :: r in prefix ==> r in records;
      InsertLeavesOthers(table, prefix, date, code);
      UpsertWritesOneCell(UpsertAll(table, prefix), last, date, code);
    }
  }

  /** With one record for a date and code an insert writes that record, keeping the topic of a
      row that was there. */
  lemma {:induction false} InsertWritesTheRecord(table: Table, records: seq<Record>, i: nat)
    requires i < |records|
    requires NoneFor(records[..i], records[i].date, records[i].tsCode)
    requires NoneFor(records[i + 1..], records[i].date, records[i].tsCode)
    ensures var r := records[i];
            var before := Cell(table, r.date, r.tsCode);
            Cell(UpsertAll(table, records), r.date, r.tsCode)
              == Some(if before.Some? then r.row.(topicID := before.value.topicID) else r.row)
  {
    var n := |records| - 1;
    var prefix, last, r := records[..n], records[n], records[i];
    if i == n {
      InsertLeavesOthers(table, prefix, r.date, r.tsCode);
    } else {
      assert prefix[..i] == records[..i] && prefix[i + 1..] == records[i + 1..][..n - i - 1];
      InsertWritesTheRecord(table, prefix, i);
      assert last == records[i + 1..][n - i - 1];
    }
    UpsertWritesOneCell(UpsertAll(table, prefix), last, r.date, r.tsCode);
  }
}
