/** Limit-up prices and the per-stock limit-up state machine (internal/pkg/limiter),
    with the quote prefilter that decides which quotes reach it.

    Prices are integer cents, ratios integer percent, and percentage changes integer
    hundredths of a percent, so 500 stands for 5.00%. */
module Limiter {
  import opened Wrappers

  datatype BoardCode = Main | Gem | Star | Bse

  /** The limit-up ratio of each board's rule. */
  function LimitUpRatio(board: BoardCode): nat {
    match board
    case Main => 10
    case Gem => 20
    case Star => 20
    case Bse => 30
  }

  function DetectBoard(symbol: string): BoardCode {
    if |symbol| >= 3 && symbol[..3] == "688" then Star
    else if |symbol| >= 3 && (symbol[..3] == "300" || symbol[..3] == "301") then Gem
    else if |symbol| >= 1 && symbol[0] in {'8', '4', '9'} then Bse
    else Main
  }

  /** Truncation of a non-negative amount is flooring. */
  function CalcLimitUpPrice(preClose: int, ratio: nat): int {
    if preClose <= 0 then 0 else preClose * (100 + ratio) / 100
  }

  predicate ReachesLimit(price: int, preClose: int, ratio: nat) {
    preClose > 0 && price >= CalcLimitUpPrice(preClose, ratio)
  }

  // Idle is the state a stock has before it is ever seen.
  datatype LimitState = Idle | LimitUp | Opened | ReSealed {
    predicate Sealed() { LimitUp? || ReSealed? }
  }

  datatype DetectInput = DetectInput(
    currentPrice: int,
    preClose: int,
    changePct: int,
    isST: bool,
    quoteTime: string,
    prevState: LimitState)

  datatype DetectOutput = DetectOutput(
    isLimitUp: bool,
    isAbove5Pct: bool,
    isFirstLimitUp: bool,
    limitUpPrice: int,
    firstLimitTime: Option<string>,
    currentState: LimitState,
    skipReason: Option<string>)

  function Skip(reason: string): DetectOutput {
    DetectOutput(false, false, false, 0, None, Idle, Some(reason))
  }

  function DetectLimitUp(input: DetectInput, ratio: nat): DetectOutput {
    if input.isST then Skip("ST stock")
    else if input.preClose <= 0 then Skip("invalid pre_close")
    else
      var limitUpPrice := CalcLimitUpPrice(input.preClose, ratio);
      if input.currentPrice >= limitUpPrice then
        var first := input.prevState == Idle;
        DetectOutput(
          true, false, first, limitUpPrice,
          if first then Some(input.quoteTime) else None,
          if input.prevState == Opened then ReSealed else LimitUp,
          None)
      else
        DetectOutput(
          false, input.changePct >= 500, false, limitUpPrice, None,
          if input.prevState.Sealed() then Opened else Idle,
          None)
  }

  /** The limit price is the largest whole cent not above preClose * (1 + ratio). */
  lemma LimitPriceWithinOneCent(preClose: int, ratio: nat)
    requires preClose > 0
    ensures var limit := CalcLimitUpPrice(preClose, ratio);
            100 * limit <= preClose * (100 + ratio) < 100 * (limit + 1)
  {
  }

  lemma LimitPriceMonotone(pre1: int, ratio1: nat, pre2: int, ratio2: nat)
    requires pre1 <= pre2 && ratio1 <= ratio2
    ensures CalcLimitUpPrice(pre1, ratio1) <= CalcLimitUpPrice(pre2, ratio2)
  {
  }

  // ----- the limit price when the product is rounded before it is truncated

  /** The limit in cents when the floating-point product, in cents, is off by error. */
  function RoundedLimitPrice(preClose: int, ratio: nat, error: real): int
    requires preClose > 0
  {
    (preClose as real * (100 + ratio) as real / 100.0 + error).Floor
  }

  /** The exact product is a whole number of hundredths of a cent. */
  lemma ProductInHundredths(preClose: int, ratio: nat)
    requires preClose > 0
    ensures var limit, rest := CalcLimitUpPrice(preClose, ratio), preClose * (100 + ratio) % 100;
            && 0 <= rest < 100
            && preClose as real * (100 + ratio) as real / 100.0 == limit as real + rest as real / 100.0
  {
    var k := preClose * (100 + ratio);
    assert k == 100 * (k / 100) + k % 100;
    assert k as real == preClose as real * (100 + ratio) as real;
  }

  /** With an error below a hundredth of a cent, the rounded limit is the exact one, except that
      it is one cent lower exactly when the exact product is a whole cent and the error negative. */
  lemma RoundedLimitIff(preClose: int, ratio: nat, error: real)
    requires preClose > 0 && -0.01 < error < 0.01
    ensures RoundedLimitPrice(preClose, ratio, error)
            == CalcLimitUpPrice(preClose, ratio) - if preClose * (100 + ratio) % 100 == 0 && error < 0.0 then 1 else 0
  {
    ProductInHundredths(preClose, ratio);
  }

  // ----- the state machine over a whole sequence of quotes of one stock

  predicate IsLimitUpQuote(input: DetectInput, ratio: nat) {
    !input.isST && ReachesLimit(input.currentPrice, input.preClose, ratio)
  }

  /** State reached from Idle; the prevState stored in the inputs is ignored. */
  function StateAfter(inputs: seq<DetectInput>, ratio: nat): LimitState {
    if inputs == [] then Idle
    else
      var last := inputs[|inputs| - 1];
      DetectLimitUp(last.(prevState := StateAfter(inputs[..|inputs| - 1], ratio)), ratio).currentState
  }

  /** A quote the detector judges, and finds below the limit. */
  predicate IsOpenQuote(input: DetectInput, ratio: nat) {
    !input.isST && input.preClose > 0 && !IsLimitUpQuote(input, ratio)
  }

  /** A stock is sealed exactly when its last quote was limit-up, opened exactly when it then
      fell below the limit, and re-sealed exactly on limit-up, open, limit-up: the last three
      quotes decide the state of any history. */
  lemma {:induction false} StateIsLastThreeQuotes(inputs: seq<DetectInput>, ratio: nat)
    ensures var n := |inputs|;
            var s := StateAfter(inputs, ratio);
            && (s.Sealed() <==> n >= 1 && IsLimitUpQuote(inputs[n - 1], ratio))
            && (s == Opened <==> n >= 2 && IsLimitUpQuote(inputs[n - 2], ratio)
                                 && IsOpenQuote(inputs[n - 1], ratio))
            && (s == ReSealed <==> n >= 3 && IsLimitUpQuote(inputs[n - 3], ratio)
                                   && IsOpenQuote(inputs[n - 2], ratio)
                                   && IsLimitUpQuote(inputs[n - 1], ratio))
  {
    if inputs != [] {
      StateIsLastThreeQuotes(inputs[..|inputs| - 1], ratio);
    }
  }

  // ----- the quote prefilter

  /** Rounds half away from zero. */
  function RoundDiv(a: int, b: int): int
    requires b > 0
  {
    if a >= 0 then (2 * a + b) / (2 * b) else -((-2 * a + b) / (2 * b))
  }

  function CalPct(pre: int, now: int): int
    requires pre > 0
  {
    RoundDiv((now - pre) * 10000, pre)
  }

  lemma DivAtLeast(x: int, y: int, n: int)
    requires y > 0
    ensures x / y >= n <==> x >= y * n
  {
    var q, r := x / y, x % y;
    assert x == y * q + r;
    if q >= n {
      assert y * (q - n) >= 0;
    } else {
      assert y * (n - 1 - q) >= 0;
    }
  }

  lemma RoundDivNearest(a: int, b: int)
    requires b > 0
    ensures -b <= (2 * b) * RoundDiv(a, b) - 2 * a <= b
    ensures a >= 0 ==> RoundDiv(a, b) >= 0
    ensures a <= 0 ==> RoundDiv(a, b) <= 0
  {
    var m := if a >= 0 then a else -a;
    var q := (2 * m + b) / (2 * b);
    DivAtLeast(2 * m + b, 2 * b, q);
    DivAtLeast(2 * m + b, 2 * b, q + 1);
    DivAtLeast(2 * m + b, 2 * b, 0);
    assert (2 * b) * (q + 1) == (2 * b) * q + 2 * b;
    if a < 0 {
      assert RoundDiv(a, b) == -q && (2 * b) * (-q) == -((2 * b) * q);
    }
  }

  /** The change in hundredths of a percent, off by at most half of one either way. */
  lemma CalPctIsNearest(pre: int, now: int)
    requires pre > 0
    ensures -pre <= (2 * pre) * CalPct(pre, now) - 20000 * (now - pre) <= pre
    ensures CalPct(pre, now) == 0 || (CalPct(pre, now) > 0 <==> now > pre)
  {
    RoundDivNearest((now - pre) * 10000, pre);
  }

  lemma CalPctAtLeast5(pre: int, now: int)
    requires 0 < pre <= now
    ensures CalPct(pre, now) >= 500 <==> 20000 * (now - pre) >= 999 * pre
  {
    DivAtLeast(20000 * (now - pre) + pre, 2 * pre, 500);
  }

  lemma LimitGain(pre: int, ratio: nat)
    requires pre > 0
    ensures CalcLimitUpPrice(pre, ratio) == pre + pre * ratio / 100
  {
  }

  /** Every price at or above the limit shows a change of at least 5% exactly when the
      ratio is worth at least one cent. On the main board that is preClose >= 10 cents. */
  lemma LimitUpShowsFivePercentIff(pre: int, board: BoardCode)
    requires pre > 0
    ensures (forall price :: price >= CalcLimitUpPrice(pre, LimitUpRatio(board)) ==> CalPct(pre, price) >= 500)
            <==> pre * LimitUpRatio(board) >= 100
  {
    var ratio := LimitUpRatio(board);
    var gain := pre * ratio / 100;
    LimitGain(pre, ratio);
    if pre * ratio < 100 {
      assert gain == 0;
      assert CalPct(pre, pre) == 0 by { assert pre / (2 * pre) == 0; }
    } else {
      assert gain >= 1 && 100 * gain > pre * 10 - 100 by {
        assert pre * ratio >= pre * 10;
        assert pre * ratio == 100 * gain + pre * ratio % 100;
      }
      forall price | price >= pre + gain ensures CalPct(pre, price) >= 500 {
        CalPctAtLeast5(pre, price);
      }
    }
  }

  datatype Quote = Quote(tsCode: string, preClose: int, price: int, pctChg: int, updateTime: string)

  /** The change the quote source computes; no claim is made when there is no previous close. */
  predicate WellPriced(q: Quote) {
    q.preClose > 0 ==> q.pctChg == CalPct(q.preClose, q.price)
  }

  predicate Kept(q: Quote, yesterdayStrong: set<string>) {
    q.pctChg >= 500 || q.tsCode in yesterdayStrong
  }

  function KeptQuotes(quotes: seq<Quote>, yesterdayStrong: set<string>, now: string): seq<Quote> {
    if quotes == [] then []
    else
      var last := quotes[|quotes| - 1];
      KeptQuotes(quotes[..|quotes| - 1], yesterdayStrong, now)
      + if Kept(last, yesterdayStrong) then [last.(updateTime := now)] else []
  }

  method FetchAllQuotes(quotes: seq<Quote>, yesterdayStrong: set<string>, now: string) returns (result: seq<Quote>)
    ensures result == KeptQuotes(quotes, yesterdayStrong, now)
  {
    result := [];
    for i := 0 to |quotes|
      invariant result == KeptQuotes(quotes[..i], yesterdayStrong, now)
    {
      assert quotes[..i + 1][..i] == quotes[..i];
      var q := quotes[i];
      if q.pctChg >= 500 || q.tsCode in yesterdayStrong {
        result := result + [q.(updateTime := now)];
      }
    }
    assert quotes[..|quotes|] == quotes;
  }

  lemma {:induction false} KeptQuotesMembers(quotes: seq<Quote>, strong: set<string>, now: string, q: Quote)
    requires q in quotes && Kept(q, strong)
    ensures q.(updateTime := now) in KeptQuotes(quotes, strong, now)
  {
    if q != quotes[|quotes| - 1] {
      assert q in quotes[..|quotes| - 1];
      KeptQuotesMembers(quotes[..|quotes| - 1], strong, now, q);
    }
  }

  /** The prefilter never loses a limit-up quote whose limit is at least one cent of gain. */
  lemma PrefilterKeepsLimitUps(quotes: seq<Quote>, strong: set<string>, now: string, q: Quote, board: BoardCode)
    requires q in quotes && WellPriced(q)
    requires q.preClose > 0 && q.preClose * LimitUpRatio(board) >= 100
    requires q.price >= CalcLimitUpPrice(q.preClose, LimitUpRatio(board))
    ensures q.(updateTime := now) in KeptQuotes(quotes, strong, now)
  {
    LimitUpShowsFivePercentIff(q.preClose, board);
    KeptQuotesMembers(quotes, strong, now, q);
  }
}
