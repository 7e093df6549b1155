/** The in-memory pools (dal/cache/pool_cache.go): one set of codes per date for each pool,
    and the first time each code was seen at its limit. */
module PoolCaches {
  import opened Wrappers

  type Date = string
  type Pool = map<Date, set<string>>
  type Times = map<Date, map<string, string>>

  /** A date never written holds the empty pool. */
  function Members(pool: Pool, date: Date): set<string> {
    if date in pool then pool[date] else {}
  }

  function TimesOn(times: Times, date: Date): map<string, string> {
    if date in times then times[date] else map[]
  }

  function WithAll(pool: Pool, date: Date, codes: seq<string>): Pool {
    if codes == [] then pool else pool[date := Members(pool, date) + Elements(codes)]
  }

  function WithoutAll(pool: Pool, date: Date, codes: seq<string>): Pool {
    if codes == [] || date !in pool then pool else pool[date := pool[date] - Elements(codes)]
  }

  function WithTime(times: Times, date: Date, code: string, time: string): Times {
    if code in TimesOn(times, date) then times else times[date := TimesOn(times, date)[code := time]]
  }

  class PoolCache {
    var limitUp: Pool
    var above5: Pool
    var firstLimit: Times
    var yesterdayStrong: Pool

    constructor ()
      ensures limitUp == above5 == map[] && firstLimit == map[] && yesterdayStrong == map[]
    {
      limitUp, above5, firstLimit, yesterdayStrong := map[], map[], map[], map[];
    }

    method AddLimitUpBatch(date: Date, tsCodes: seq<string>)
      modifies this`limitUp
      ensures limitUp == WithAll(old(limitUp), date, tsCodes)
    {
      if |tsCodes| == 0 { return; }
      var members := AddAll(Members(limitUp, date), tsCodes);
      limitUp := limitUp[date := members];
    }

    method RemoveLimitUpBatch(date: Date, tsCodes: seq<string>)
      modifies this`limitUp
      ensures limitUp == WithoutAll(old(limitUp), date, tsCodes)
    {
      if |tsCodes| == 0 { return; }
      if date in limitUp {
        var members := RemoveAll(limitUp[date], tsCodes);
        limitUp := limitUp[date := members];
      }
    }

    method AddAbove5Batch(date: Date, tsCodes: seq<string>)
      modifies this`above5
      ensures above5 == WithAll(old(above5), date, tsCodes)
    {
      if |tsCodes| == 0 { return; }
      var members := AddAll(Members(above5, date), tsCodes);
      above5 := above5[date := members];
    }

    method RemoveAbove5Batch(date: Date, tsCodes: seq<string>)
      modifies this`above5
      ensures above5 == WithoutAll(old(above5), date, tsCodes)
    {
      if |tsCodes| == 0 { return; }
      if date in above5 {
        var members := RemoveAll(above5[date], tsCodes);
        above5 := above5[date := members];
      }
    }

    /** Set-if-absent: an earlier time is never overwritten. */
    method SetFirstLimitTime(date: Date, tsCode: string, limitTime: string)
      modifies this`firstLimit
      ensures firstLimit == WithTime(old(firstLimit), date, tsCode, limitTime)
    {
      var times := map[];
      if date in firstLimit {
        times := firstLimit[date];
        if tsCode in times { return; }
      }
      firstLimit := firstLimit[date := times[tsCode := limitTime]];
    }

    /** The codes for which IsYesterdayStrong says yes. */
    function YesterdayStrong(date: Date): set<string>
      reads this`yesterdayStrong
    {
      Members(yesterdayStrong, date)
    }
  }

  method AddAll(start: set<string>, tsCodes: seq<string>) returns (members: set<string>)
    ensures members == start + Elements(tsCodes)
  {
    members := start;
    for i := 0 to |tsCodes|
      invariant members == start + Elements(tsCodes[..i])
    {
      assert tsCodes[..i + 1] == tsCodes[..i] + [tsCodes[i]];
      members := members + {tsCodes[i]};
    }
    assert tsCodes[..|tsCodes|] == tsCodes;
  }

  method RemoveAll(start: set<string>, tsCodes: seq<string>) returns (members: set<string>)
    ensures members == start - Elements(tsCodes)
  {
    members := start;
    for i := 0 to |tsCodes|
      invariant members == start - Elements(tsCodes[..i])
    {
      assert tsCodes[..i + 1] == tsCodes[..i] + [tsCodes[i]];
      members := members - {tsCodes[i]};
    }
    assert tsCodes[..|tsCodes|] == tsCodes;
  }
}
