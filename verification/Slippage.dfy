/**
 The minimum output of a quote: the router's fixed half per cent, the custom
 slippage of src/modules/quotes/application/GetQuoteUseCase.ts, and the guard
 of src/modules/quotes/service.ts in front of it.  Amounts are BigInt, so
 division truncates towards zero.
 */
module Slippage {
  import opened Prelude

  /** BigInt division by a positive number. */
  function TruncDiv(a: int, b: int): int
    requires b > 0
  {
    if a >= 0 then a / b else -(-a / b)
  }

  /** The router's default. */
  function RouterMinimum(amountOut: nat): int { TruncDiv(amountOut * 995, 1000) }

  function CustomMinimum(amountOut: nat, bps: int): int { TruncDiv(amountOut * (10000 - bps), 10000) }

  /** The rule of the use case; an absent or zero slippage keeps the router's minimum. */
  function QuoteMinimum(amountOut: nat, bps: Option<int>): int {
    if bps.Some? && bps.value > 0 then CustomMinimum(amountOut, bps.value) else RouterMinimum(amountOut)
  }

  lemma MulLe(a: int, b: int, c: nat)
    requires a <= b
    ensures a * c <= b * c
  {
  }

  lemma DivisionIsMonotone(a: nat, b: int)
    requires a <= b
    ensures TruncDiv(a, 10000) <= TruncDiv(b, 10000)
  {
  }

  /** The minimum lies within the amount and less than one unit below the exact value. */
  lemma MinimumIsTheFloor(amountOut: nat, bps: int)
    requires 0 < bps <= 10000
    ensures 0 <= CustomMinimum(amountOut, bps) <= amountOut
    ensures CustomMinimum(amountOut, bps) * 10000 <= amountOut * (10000 - bps)
    ensures amountOut * (10000 - bps) < (CustomMinimum(amountOut, bps) + 1) * 10000
  {
    MulLe(0, 10000 - bps, amountOut);
    MulLe(10000 - bps, 10000, amountOut);
  }

  /** More output never lowers the minimum, more slippage never raises it. */
  lemma MinimumIsMonotone(small: nat, large: nat, tight: int, loose: int)
    requires small <= large && 0 < tight <= loose <= 10000
    ensures CustomMinimum(small, loose) <= CustomMinimum(large, tight)
  {
    MulLe(0, small, 10000 - loose);
    MulLe(small, large, 10000 - loose);
    MulLe(10000 - loose, 10000 - tight, large);
    DivisionIsMonotone(small * (10000 - loose), large * (10000 - tight));
  }

  /** The router's default is the formula at 50 basis points, for every amount. */
  lemma DefaultIsFiftyBasisPoints(amountOut: nat)
    ensures RouterMinimum(amountOut) == CustomMinimum(amountOut, 50)
    ensures QuoteMinimum(amountOut, None) == QuoteMinimum(amountOut, Some(50))
  {
  }

  /** Asking for zero slippage gives the default, which takes something off every positive amount. */
  lemma ZeroSlippageIsTheDefault(amountOut: nat)
    ensures QuoteMinimum(amountOut, Some(0)) == CustomMinimum(amountOut, 50)
    ensures QuoteMinimum(amountOut, Some(0)) == amountOut <==> amountOut == 0
  {
  }

  /** Where the formula goes below zero; the guard below keeps such a slippage out. */
  lemma NegativeMinimumIff(amountOut: nat, bps: int)
    requires 0 < bps
    ensures QuoteMinimum(amountOut, Some(bps)) < 0 <==> amountOut * (bps - 10000) >= 10000
  {
    assert amountOut * (10000 - bps) == -(amountOut * (bps - 10000));
    if bps <= 10000 {
      MulLe(bps - 10000, 0, amountOut);
      MulLe(0, 10000 - bps, amountOut);
    }
  }

  // ----- the guard

  /** What JavaScript's Number makes of a text: any finite number, or an infinity or NaN. */
  datatype JsNumber = NotFinite | Finite(value: real)

  datatype Resolved = Accepted(bps: Option<int>) | InvalidSlippage

  /** The slippage the use case is called with; `number` is what the text converts to. */
  function ResolveSlippageBps(text: Option<string>, number: JsNumber): Resolved {
    if text.None? || text.value == "" then Accepted(None)
    else if number.NotFinite? || number.value != number.value.Floor as real then InvalidSlippage
    else if number.value < 0.0 || number.value > 10000.0 then InvalidSlippage
    else Accepted(Some(number.value.Floor))
  }

  /** A quote request as far as its minimum goes: the guard, then the rule. */
  function EstimateMinimum(amountOut: nat, text: Option<string>, number: JsNumber): Option<int> {
    match ResolveSlippageBps(text, number)
    case Accepted(bps) => Some(QuoteMinimum(amountOut, bps))
    case InvalidSlippage => None
  }

  predicate WithinAmount(minimum: int, amountOut: nat) { 0 <= minimum <= amountOut }

  predicate IsBps(number: JsNumber, bps: int) { 0 <= bps <= 10000 && number == Finite(bps as real) }

  lemma DefaultIsWithinAmount(amountOut: nat)
    ensures WithinAmount(RouterMinimum(amountOut), amountOut)
  {
    DefaultIsFiftyBasisPoints(amountOut);
    MinimumIsTheFloor(amountOut, 50);
  }

  /**
   End to end: whatever the text of a slippage and whatever it converts to, a
   request that is not refused gets a minimum between zero and the amount,
   and it is refused exactly for a text that is not an integer from 0 to
   10000.
   */
  lemma AcceptedSlippageIsSafe(amountOut: nat, text: Option<string>, number: JsNumber)
    ensures var minimum := EstimateMinimum(amountOut, text, number);
            && (minimum.Some? ==> WithinAmount(minimum.value, amountOut))
            && (minimum.None? <==> text.Some? && text.value != "" && !exists bps: int :: IsBps(number, bps))
  {
    DefaultIsWithinAmount(amountOut);
    if number.Finite? && 0 < number.value.Floor <= 10000 {
      MinimumIsTheFloor(amountOut, number.value.Floor);
    }
    if EstimateMinimum(amountOut, text, number).Some? && text.Some? && text.value != "" {
      assert IsBps(number, number.value.Floor);
    }
  }

  /** The basis points a request is served at: those of its text, and 50 for none, an empty one or zero. */
  predicate ServedAt(text: Option<string>, number: JsNumber, bps: int) {
    if text.None? || text.value == "" || number == Finite(0.0) then bps == 50
    else number == Finite(bps as real) && 1 <= bps <= 10000
  }

  /**
   End to end: the minimum of a request is the amount less its basis points,
   rounded down to a whole unit.
   */
  lemma EstimateIsTheFloor(amountOut: nat, text: Option<string>, number: JsNumber, bps: int)
    requires ServedAt(text, number, bps)
    ensures EstimateMinimum(amountOut, text, number).Some?
    ensures var m := EstimateMinimum(amountOut, text, number).value;
            m * 10000 <= amountOut * (10000 - bps) < (m + 1) * 10000
  {
    DefaultIsFiftyBasisPoints(amountOut);
    MinimumIsTheFloor(amountOut, bps);
  }

  /** End to end: more output never lowers the minimum, more basis points never raise it. */
  lemma EstimateIsMonotone(small: nat, large: nat, text: Option<string>, number: JsNumber, bps: int,
                           looseText: Option<string>, looseNumber: JsNumber, looseBps: int)
    requires small <= large && bps <= looseBps
    requires ServedAt(text, number, bps) && ServedAt(looseText, looseNumber, looseBps)
    ensures EstimateMinimum(small, looseText, looseNumber).Some? && EstimateMinimum(large, text, number).Some?
    ensures EstimateMinimum(small, looseText, looseNumber).value <= EstimateMinimum(large, text, number).value
  {
    EstimateIsTheFloor(small, looseText, looseNumber, looseBps);
    EstimateIsTheFloor(large, text, number, bps);
    DefaultIsFiftyBasisPoints(small);
    DefaultIsFiftyBasisPoints(large);
    MinimumIsMonotone(small, large, bps, looseBps);
  }

  /** The guard's cap is the right one: the rule is safe for every amount exactly up to 10000. */
  lemma CapIsExact(bps: int)
    ensures (forall amountOut: nat :: WithinAmount(QuoteMinimum(amountOut, Some(bps)), amountOut)) <==> bps <= 10000
  {
    if bps <= 10000 {
      forall amountOut: nat ensures WithinAmount(QuoteMinimum(amountOut, Some(bps)), amountOut) {
        DefaultIsWithinAmount(amountOut);
        if 0 < bps {
          MinimumIsTheFloor(amountOut, bps);
        }
      }
    } else {
      NegativeMinimumIff(10000, bps);
      assert !WithinAmount(QuoteMinimum(10000, Some(bps)), 10000);
    }
  }
}
