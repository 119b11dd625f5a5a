/** The 10 bps entry fee, floored, and what splitting a deposit does to it. */
module ProtocolFee {
  import opened Common
  import opened ConstantProduct

  const PROTOCOL_FEE_BPS: nat := 10

  datatype FeeLine = FeeLine(grossAmount: nat, fee: nat, amountAfterFee: nat)

  function ComputeProtocolFee(amount: int): Option<FeeLine> {
    if amount < 0 then None
    else var fee := amount * PROTOCOL_FEE_BPS / BPS; Some(FeeLine(amount, fee, amount - fee))
  }

  function Fee(amount: nat): nat {
    ComputeProtocolFee(amount).value.fee
  }

  function FeeOfPieces(pieces: seq<nat>): nat {
    if pieces == [] then 0 else Fee(pieces[0]) + FeeOfPieces(pieces[1..])
  }

  /** The fee is a thousandth rounded down, the rest is refunded, and a negative amount is refused. */
  lemma FeeIsFloor(amount: int)
    ensures var line := ComputeProtocolFee(amount);
            && (line.None? <==> amount < 0)
            && (line.Some? ==>
                  && line.value.fee * 1_000 <= amount < (line.value.fee + 1) * 1_000
                  && line.value.grossAmount == amount && line.value.amountAfterFee + line.value.fee == amount)
  {}

  /** Splitting a deposit into n pieces saves at most n-1 units of fee and never costs more. */
  lemma {:induction false} SplitFee(pieces: seq<nat>)
    requires pieces != []
    ensures FeeOfPieces(pieces) <= Fee(Total(pieces)) <= FeeOfPieces(pieces) + |pieces| - 1
  {
    if |pieces| > 1 {
      SplitFee(pieces[1..]);
    } else {
      assert Total(pieces) == pieces[0];
    }
  }
}
